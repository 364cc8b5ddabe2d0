/** The genesis hash argument of `canister_init`: an optional hex string that
    replaces the all-zero genesis hash only when `hex::decode` accepts it and
    it decodes to exactly 32 bytes. `hex::decode` works on the bytes of the
    string; a non-ASCII character is rejected either as an invalid digit or
    through an odd byte count, so deciding on characters gives the same
    outcome. */
module Hex {
  import opened Bytes
  import opened Outcomes

  /** The value of one hex digit, either case. */
  function DigitValue(c: char): (r: Option<nat>)
    ensures r.Some? ==> r.value < 16
  {
    if '0' <= c <= '9' then Some(c as int - '0' as int)
    else if 'a' <= c <= 'f' then Some(c as int - 'a' as int + 10)
    else if 'A' <= c <= 'F' then Some(c as int - 'A' as int + 10)
    else None
  }

  /** The lower-case digit of a value below 16, as `hex::encode` writes it. */
  function Digit(v: nat): (c: char)
    requires v < 16
    ensures DigitValue(c) == Some(v)
  {
    if v < 10 then ('0' as int + v) as char else ('a' as int + v - 10) as char
  }

  predicate IsHexDigit(c: char) {
    DigitValue(c).Some?
  }

  /** `hex::decode`: an odd length, or any character that is not a hex
      digit, is an error. */
  function Decode(s: string): (r: Option<Blob>)
    ensures r.Some? ==> |r.value| * 2 == |s|
    decreases |s|
  {
    if |s| % 2 == 1 then None
    else if s == [] then Some([])
    else
      match (DigitValue(s[0]), DigitValue(s[1]), Decode(s[2..]))
      case (Some(hi), Some(lo), Some(rest)) => Some([16 * hi + lo] + rest)
      case _ => None
  }

  /** `hex::encode`: two lower-case digits per byte, high digit first. */
  function Encode(b: Blob): (s: string)
    ensures |s| == 2 * |b|
  {
    if b == [] then [] else [Digit(b[0] / 16), Digit(b[0] % 16)] + Encode(b[1..])
  }

  lemma {:induction false} DecodeEncode(b: Blob)
    ensures Decode(Encode(b)) == Some(b)
  {
    if b != [] {
      var s := Encode(b);
      assert s[2..] == Encode(b[1..]);
      DecodeEncode(b[1..]);
      assert b == [b[0]] + b[1..];
    }
  }

  /** `hex::decode` succeeds exactly on strings of even length made of hex digits. */
  lemma {:induction false} DecodeDefined(s: string)
    ensures Decode(s).Some? <==> |s| % 2 == 0 && forall i :: 0 <= i < |s| ==> IsHexDigit(s[i])
    decreases |s|
  {
    if |s| % 2 == 0 && s != [] {
      DecodeDefined(s[2..]);
      assert forall i :: 2 <= i < |s| ==> s[i] == s[2..][i - 2];
    }
  }

  /** The genesis hash left in `PREVIOUS_HASH` by `canister_init(arg)`. */
  function InitialHash(arg: Option<string>): (r: Hash)
    ensures arg.None? ==> r == ZERO_HASH
  {
    if arg.Some? then
      match Decode(arg.value)
      case Some(b) => if |b| == 32 then b else ZERO_HASH
      case None => ZERO_HASH
    else ZERO_HASH
  }

  /** The hex form of a hash installs that hash as genesis. */
  lemma InitialHashOfEncoding(h: Hash)
    ensures InitialHash(Some(Encode(h))) == h
  {
    DecodeEncode(h);
  }

  /** An argument that is not a hex string of 64 digits leaves the zero hash. */
  lemma InitialHashRejects(s: string)
    requires |s| != 64 || exists i :: 0 <= i < |s| && !IsHexDigit(s[i])
    ensures InitialHash(Some(s)) == ZERO_HASH
  {
    DecodeDefined(s);
  }
}
