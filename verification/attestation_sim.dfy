/**
 * Simulated remote attestation (src/tee_simulator/attestation_sim.cpp). A report is
 * one type byte, the 65-byte enclave public key and a 64-byte placeholder signature;
 * verification only checks the length and the embedded key.
 */
module AttestationSim {
  import opened Common

  const REPORT_TYPE: byte := 0x01
  const SIGNATURE_FILL: byte := 0xAA
  const REPORT_LENGTH: nat := 1 + 65 + 64

  /** The report format's acceptance condition: right length, the key at bytes 1..65. */
  predicate Matches(report: seq<byte>, pubKey: PubKey)
  {
    |report| == REPORT_LENGTH && report[1..66] == pubKey
  }

  /** `tee_create_attestation` (always succeeds): type byte ‖ key ‖ 64 × 0xAA. */
  function CreateAttestation(pubKey: PubKey): (report: seq<byte>)
    ensures |report| == REPORT_LENGTH
    ensures report[0] == REPORT_TYPE
    ensures report[1..66] == pubKey
    ensures forall i :: 66 <= i < REPORT_LENGTH ==> report[i] == SIGNATURE_FILL
  {
    [REPORT_TYPE] + pubKey + seq(64, i => SIGNATURE_FILL)
  }

  /** `tee_verify_attestation`: 0 when the report matches the key, -1 otherwise. */
  method VerifyAttestation(report: seq<byte>, pubKey: PubKey) returns (status: int)
    ensures status == 0 || status == -1
    ensures status == 0 <==> Matches(report, pubKey)
  {
    if |report| != REPORT_LENGTH {
      return -1;
    }
    var i := 0;
    while i < 65
      invariant 0 <= i <= 65
      invariant forall j :: 0 <= j < i ==> report[1 + j] == pubKey[j]
    {
      if report[1 + i] != pubKey[i] {
        return -1;
      }
      i := i + 1;
    }
    assert report[1..66] == pubKey;
    return 0;
  }

  /** A created report verifies under the key it embeds. */
  lemma CreateThenVerify(pubKey: PubKey)
    ensures Matches(CreateAttestation(pubKey), pubKey)
  {
  }

  /** A report binds one key: it never verifies under a different key. */
  lemma ReportBindsKey(report: seq<byte>, k1: PubKey, k2: PubKey)
    requires Matches(report, k1) && Matches(report, k2)
    ensures k1 == k2
  {
  }

  /**
   * Neither the type byte nor the signature bytes are inspected: any report of the
   * right length carrying the key verifies, so the check authenticates nothing.
   */
  lemma SignatureBytesIgnored(pubKey: PubKey, typeByte: byte, sig: seq<byte>)
    requires |sig| == 64
    ensures Matches([typeByte] + pubKey + sig, pubKey)
  {
    assert ([typeByte] + pubKey + sig)[1..66] == pubKey;
  }
}
