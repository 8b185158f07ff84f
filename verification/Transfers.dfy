/** core/tx.go and the address rule of crypto/crypto.go. */
module Transfers {
  import opened Machine
  import opened Text
  import opened Consensus

  /** A key of fewer than 14 bytes makes PubkeyToAddress panic; keys here have at least 14. */
  type PubKey = k: string | |k| >= 14 witness "00000000000000"

  datatype Transfer = Transfer(senderPubKey: PubKey, recipient: string, value: u64, fee: u64, nonce: u64,
      signature: string)

  function PubkeyToAddress(key: PubKey): string { ADDRESS_PREFIX + HexEncode(key[..14]) }

  /** An address is "xcosh" and 28 hexadecimal digits, and determines the first 14 bytes of the key. */
  lemma AddressOfKey(key: PubKey, other: PubKey)
    ensures "xcosh" <= PubkeyToAddress(key) && |PubkeyToAddress(key)| == 33
    ensures HexDecode(PubkeyToAddress(key)[5..]) == Some(key[..14]) || !IsBytes(key[..14])
    ensures IsBytes(key[..14]) && IsBytes(other[..14]) ==>
              (PubkeyToAddress(key) == PubkeyToAddress(other) <==> key[..14] == other[..14])
  {
    HexLength(key[..14]);
    assert PubkeyToAddress(key)[5..] == HexEncode(key[..14]);
    assert PubkeyToAddress(other)[5..] == HexEncode(other[..14]);
    if IsBytes(key[..14]) {
      HexRoundTrip(key[..14]);
      if IsBytes(other[..14]) {
        HexInjective(key[..14], other[..14]);
      }
    }
  }

  function Sender(tx: Transfer): string { PubkeyToAddress(tx.senderPubKey) }

  /** Value + Fee in a 64-bit register. */
  function Cost(tx: Transfer): u64 { Add64(tx.value, tx.fee) }

  function PayloadBytes(tx: Transfer): string {
    tx.recipient + "-" + FormatUint(tx.value, 10) + "-" + FormatUint(tx.fee, 10) + "-" + FormatUint(tx.nonce, 10)
  }

  /** What ComputeID hashes. */
  function IDPreimage(tx: Transfer): string { tx.senderPubKey + PayloadBytes(tx) }

  // ---- Reading a payload back, from its end ----

  function SplitAtLastDash(s: string): Option<(string, string)> {
    if s == "" then None
    else if s[|s| - 1] == '-' then Some((s[..|s| - 1], ""))
    else
      match SplitAtLastDash(s[..|s| - 1])
      case Some((before, after)) => Some((before, after + [s[|s| - 1]]))
      case None => None
  }

  lemma {:induction false} SplitsAtDash(before: string, after: string)
    requires '-' !in after
    ensures SplitAtLastDash(before + "-" + after) == Some((before, after))
  {
    var s := before + "-" + after;
    if after == "" {
      assert s[..|s| - 1] == before;
    } else {
      var shorter := after[..|after| - 1];
      SplitsAtDash(before, shorter);
      assert s[..|s| - 1] == before + "-" + shorter;
      assert shorter + [after[|after| - 1]] == after;
    }
  }

  datatype Payload = Payload(recipient: string, value: u64, fee: u64, nonce: u64)

  function DecodePayload(s: string): Option<Payload> {
    match SplitAtLastDash(s)
    case None => None
    case Some((s2, nonce)) =>
      match SplitAtLastDash(s2)
      case None => None
      case Some((s1, fee)) =>
        match SplitAtLastDash(s1)
        case None => None
        case Some((recipient, value)) =>
          match (ParseUint(value), ParseUint(fee), ParseUint(nonce))
          case (Some(v), Some(f), Some(n)) => Some(Payload(recipient, v, f, n))
          case _ => None
  }

  /** Every payload can be read back, whatever the recipient string, dashes included. */
  lemma PayloadRoundTrip(tx: Transfer)
    ensures DecodePayload(PayloadBytes(tx)) == Some(Payload(tx.recipient, tx.value, tx.fee, tx.nonce))
  {
    var v, f, n := FormatUint(tx.value, 10), FormatUint(tx.fee, 10), FormatUint(tx.nonce, 10);
    FormatUintParses(tx.value, 10);
    FormatUintParses(tx.fee, 10);
    FormatUintParses(tx.nonce, 10);
    SplitsAtDash(tx.recipient + "-" + v + "-" + f, n);
    SplitsAtDash(tx.recipient + "-" + v, f);
    SplitsAtDash(tx.recipient, v);
  }

  /** With keys of one length, the pre-image of the transaction ID determines the sender's key and
      everything that is signed. */
  lemma IDPreimageDetermines(a: Transfer, b: Transfer)
    requires |a.senderPubKey| == |b.senderPubKey|
    requires IDPreimage(a) == IDPreimage(b)
    ensures a == b.(signature := a.signature)
  {
    var k := |a.senderPubKey|;
    assert a.senderPubKey == IDPreimage(a)[..k] && b.senderPubKey == IDPreimage(b)[..k];
    assert PayloadBytes(a) == IDPreimage(a)[k..] && PayloadBytes(b) == IDPreimage(b)[k..];
    PayloadRoundTrip(a);
    PayloadRoundTrip(b);
  }
}
