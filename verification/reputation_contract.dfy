/**
 * The reputation ledger (src/blockchain_sim/reputation_contract.cpp): a map from node
 * id to reputation, plus the deployed parameters. Operations that throw in the source
 * return `Error` with the exception's message.
 */
module ReputationContract {
  import opened Common

  datatype Contract = Contract(params: ReputationParams, reps: map<string, real>)

  /** A default-constructed contract: default parameters, no nodes. */
  const EMPTY: Contract := Contract(DEFAULT_PARAMS, map[])

  /** The default argument of `add_node`: the middle of the reputation range. */
  const DEFAULT_INITIAL_REP: real := MIN_REP + 0.5 * (MAX_REP - MIN_REP)

  const NOT_FOUND: string := "Node not found"
  const ALREADY_EXISTS: string := "Node already exists"

  /** Every registered reputation lies in [MIN_REP, MAX_REP]. */
  predicate InRange(c: Contract)
  {
    forall n :: n in c.reps ==> MIN_REP <= c.reps[n] <= MAX_REP
  }

  /** `c'` differs from `c` at most in the entry of `node`. */
  ghost predicate OthersUnchanged(c: Contract, c': Contract, node: string)
  {
    forall n :: n != node ==> (n in c'.reps <==> n in c.reps) && (n in c.reps ==> c'.reps[n] == c.reps[n])
  }

  /**
   * `deploy`: installs the parameters and (re)sets the node's reputation to their
   * initial value, with no clamping; other nodes are untouched.
   */
  function Deploy(c: Contract, params: ReputationParams, node: string): (c': Contract)
    ensures c'.params == params
    ensures node in c'.reps && c'.reps[node] == params.initRep
    ensures OthersUnchanged(c, c', node)
  {
    Contract(params, c.reps[node := params.initRep])
  }

  /** `get_reputation`: the stored value, or "Node not found". */
  function GetReputation(c: Contract, node: string): (r: Result<real>)
    ensures r.Ok? <==> node in c.reps
    ensures r.Ok? ==> r.value == c.reps[node]
    ensures r.Error? ==> r.message == NOT_FOUND
  {
    if node in c.reps then Ok(c.reps[node]) else Error(NOT_FOUND)
  }

  /** `has_node`: exactly when `get_reputation` does not throw. */
  function HasNode(c: Contract, node: string): (b: bool)
    ensures b <==> GetReputation(c, node).Ok?
  {
    node in c.reps
  }

  /** `get_params`. */
  function GetParams(c: Contract): ReputationParams
  {
    c.params
  }

  /**
   * After `deploy`, the parameters read back are the deployed ones and the deployed
   * node reports the initial reputation, even when that lies outside [0, 1].
   */
  lemma DeployThenGet(c: Contract, params: ReputationParams, node: string)
    ensures GetParams(Deploy(c, params, node)) == params
    ensures GetReputation(Deploy(c, params, node), node) == Ok(params.initRep)
  {
  }

  /** The reputation after one verification outcome: +REP_INC capped at MAX_REP, or −REP_DEC floored at MIN_REP. */
  function Adjust(rep: real, isSuccess: bool): (r: real)
    ensures isSuccess ==> r == MinReal(rep + REP_INC, MAX_REP)
    ensures isSuccess && rep <= MAX_REP ==> rep <= r
    ensures !isSuccess ==> r == MaxReal(rep - REP_DEC, MIN_REP)
    ensures !isSuccess && rep >= MIN_REP ==> r <= rep
    ensures MIN_REP <= rep <= MAX_REP ==> MIN_REP <= r <= MAX_REP
  {
    if isSuccess then
      (if rep + REP_INC > MAX_REP then MAX_REP else rep + REP_INC)
    else
      (if rep - REP_DEC < MIN_REP then MIN_REP else rep - REP_DEC)
  }

  /**
   * `update_reputation`: "Node not found" for an unknown node; otherwise only that
   * node's reputation changes, by one Adjust step; parameters and node set are kept.
   */
  function UpdateReputation(c: Contract, node: string, isSuccess: bool): (r: Result<Contract>)
    ensures r.Error? <==> node !in c.reps
    ensures r.Error? ==> r.message == NOT_FOUND
    ensures r.Ok? ==>
      && r.value.params == c.params
      && r.value.reps.Keys == c.reps.Keys
      && r.value.reps[node] == Adjust(c.reps[node], isSuccess)
      && OthersUnchanged(c, r.value, node)
    ensures r.Ok? && InRange(c) ==> InRange(r.value)
  {
    if node !in c.reps then Error(NOT_FOUND)
    else Ok(c.(reps := c.reps[node := Adjust(c.reps[node], isSuccess)]))
  }

  /**
   * `add_node` with its default argument: a new node starts in the middle of the
   * range (0.5).
   */
  function AddNodeDefault(c: Contract, node: string): (r: Result<Contract>)
    ensures r.Error? <==> node in c.reps
    ensures r.Error? ==> r.message == ALREADY_EXISTS
    ensures r.Ok? ==> node in r.value.reps && r.value.reps[node] == 0.5 && OthersUnchanged(c, r.value, node)
  {
    AddNode(c, node, DEFAULT_INITIAL_REP)
  }

  /**
   * `add_node`: "Node already exists" for a registered node; otherwise registers it
   * with the initial reputation clamped into range, touching nothing else.
   */
  function AddNode(c: Contract, node: string, initialRep: real): (r: Result<Contract>)
    ensures r.Error? <==> node in c.reps
    ensures r.Error? ==> r.message == ALREADY_EXISTS
    ensures r.Ok? ==>
      && r.value.params == c.params
      && r.value.reps.Keys == c.reps.Keys + {node}
      && r.value.reps[node] == ClampRep(initialRep)
      && OthersUnchanged(c, r.value, node)
    ensures r.Ok? && InRange(c) ==> InRange(r.value)
  {
    if node in c.reps then Error(ALREADY_EXISTS)
    else Ok(c.(reps := c.reps[node := ClampRep(initialRep)]))
  }

  /** Deploying with an in-range initial reputation keeps every reputation in range. */
  lemma DeployPreservesRange(c: Contract, params: ReputationParams, node: string)
    requires InRange(c) && MIN_REP <= params.initRep <= MAX_REP
    ensures InRange(Deploy(c, params, node))
  {
    var c' := Deploy(c, params, node);
    forall n | n in c'.reps
      ensures MIN_REP <= c'.reps[n] <= MAX_REP
    {
      if n != node {
        assert n in c.reps;
      }
    }
  }

  /** A node added and then queried reports its clamped initial reputation. */
  lemma AddThenGet(c: Contract, node: string, initialRep: real)
    requires node !in c.reps
    ensures AddNode(c, node, initialRep).Ok?
    ensures GetReputation(AddNode(c, node, initialRep).value, node) == Ok(ClampRep(initialRep))
  {
  }

  // ---------------------------------------------------------------------------
  // Repeated outcomes
  // ---------------------------------------------------------------------------

  /** The reputation after `n` consecutive outcomes of the same kind. */
  function Repeat(rep: real, isSuccess: bool, n: nat): real
  {
    if n == 0 then rep else Adjust(Repeat(rep, isSuccess, n - 1), isSuccess)
  }

  /** n failures from an in-range reputation subtract n·REP_DEC, floored at MIN_REP. */
  lemma {:induction false} RepeatedFailures(rep: real, n: nat)
    requires MIN_REP <= rep
    ensures Repeat(rep, false, n) == MaxReal(rep - n as real * REP_DEC, MIN_REP)
  {
    if n > 0 {
      RepeatedFailures(rep, n - 1);
    }
  }

  /** n successes from a reputation at most MAX_REP add n·REP_INC, capped at MAX_REP. */
  lemma {:induction false} RepeatedSuccesses(rep: real, n: nat)
    requires rep <= MAX_REP
    ensures Repeat(rep, true, n) == MinReal(rep + n as real * REP_INC, MAX_REP)
  {
    if n > 0 {
      RepeatedSuccesses(rep, n - 1);
    }
  }

  /**
   * Ten or more failures take any in-range reputation to MIN_REP (0.0) and keep it
   * there: starting from 0.5, ten failures give 0.0, not 0.5 − 10 · 0.1.
   */
  lemma FailuresReachFloor(rep: real, n: nat)
    requires MIN_REP <= rep <= MAX_REP && n >= 10
    ensures Repeat(rep, false, n) == MIN_REP
  {
    RepeatedFailures(rep, n);
  }

  /** Twenty or more successes take any in-range reputation to MAX_REP and keep it there. */
  lemma SuccessesReachCeiling(rep: real, n: nat)
    requires MIN_REP <= rep <= MAX_REP && n >= 20
    ensures Repeat(rep, true, n) == MAX_REP
  {
    RepeatedSuccesses(rep, n);
  }

  /** Repeated updates of a registered node compute Repeat on its reputation. */
  function UpdateTimes(c: Contract, node: string, isSuccess: bool, n: nat): (r: Result<Contract>)
    ensures r.Error? <==> node !in c.reps
    ensures r.Ok? ==> r.value.reps.Keys == c.reps.Keys && r.value.reps[node] == Repeat(c.reps[node], isSuccess, n)
    ensures r.Ok? ==> OthersUnchanged(c, r.value, node)
  {
    if n == 0 then (if node in c.reps then Ok(c) else Error(NOT_FOUND))
    else
      match UpdateTimes(c, node, isSuccess, n - 1)
      case Error(m) => Error(m)
      case Ok(c1) => UpdateReputation(c1, node, isSuccess)
  }
}
