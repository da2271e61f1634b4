/** maskConnectionString of main.go, which hides a database connection string
    before it is logged. Go measures and slices strings in bytes, so the model
    works on byte sequences. */
module Masking {

  newtype byte = x: int | 0 <= x < 256

  /** The bytes of "***". */
  const Stars: seq<byte> := [42, 42, 42]

  /** Inputs shorter than this are replaced entirely. */
  const MinRevealLength := 30
  const KeptPrefix := 20
  const KeptSuffix := 10

  function MaskConnectionString(connStr: seq<byte>): (r: seq<byte>)
    ensures |r| == 3 || |r| == 33
    ensures r == Stars <==> |connStr| < MinRevealLength
  {
    if |connStr| < MinRevealLength then Stars
    else connStr[..KeptPrefix] + Stars + connStr[|connStr| - KeptSuffix..]
  }

  /** An input of 30 bytes or more shows its first 20 bytes, then "***", then
      its last 10 bytes, and those come from disjoint positions of the input. */
  lemma MaskedLayout(s: seq<byte>)
    requires |s| >= MinRevealLength
    ensures var r := MaskConnectionString(s);
      && |r| == KeptPrefix + 3 + KeptSuffix
      && KeptPrefix <= |s| - KeptSuffix
      && (forall i :: 0 <= i < KeptPrefix ==> r[i] == s[i])
      && r[KeptPrefix..KeptPrefix + 3] == Stars
      && (forall j :: KeptPrefix + 3 <= j < |r| ==> r[j] == s[|s| - |r| + j])
  {
  }

  /** Nothing but the first 20 and the last 10 bytes of the input affects the
      output, and for inputs under 30 bytes nothing at all does: the bytes in
      between never reach the log. */
  lemma MaskHidesTheRest(s: seq<byte>, t: seq<byte>)
    requires |s| < MinRevealLength <==> |t| < MinRevealLength
    requires |s| >= MinRevealLength ==>
      s[..KeptPrefix] == t[..KeptPrefix] && s[|s| - KeptSuffix..] == t[|t| - KeptSuffix..]
    ensures MaskConnectionString(s) == MaskConnectionString(t)
  {
  }

  /** Masking a masked string changes nothing more. */
  lemma MaskIdempotent(s: seq<byte>)
    ensures MaskConnectionString(MaskConnectionString(s)) == MaskConnectionString(s)
  {
    var r := MaskConnectionString(s);
    if |s| >= MinRevealLength {
      MaskedLayout(s);
      assert r[..KeptPrefix] == s[..KeptPrefix];
      assert r[|r| - KeptSuffix..] == s[|s| - KeptSuffix..];
    }
  }
}
