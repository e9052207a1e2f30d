/** The 32-bit checksum the sender and receiver run over each segment, as the code computes it. */
module Checksum {
  import opened Bytes

  function Word(s: seq<byte>, i: nat): (w: uint32)
    requires i + 4 <= |s|
  {
    Quad(s[i..i + 4])
  }

  function Quad(s: seq<byte>): (w: uint32)
    requires |s| == 4
  {
    0x100_0000 * (s[0] as int) + 0x1_0000 * (s[1] as int) + 0x100 * (s[2] as int) + s[3]
  }

  /** Sum of the words at `i`, `i + 4`, ... that start more than four octets before the end,
      then of the last one to three octets padded with zeros. A last whole word is left out. */
  function SumWords(s: seq<byte>, i: nat): uint32
    decreases |s| - i
  {
    if i + 4 < |s| then Add32(Word(s, i), SumWords(s, i + 4))
    else if i + 4 == |s| || i >= |s| then 0
    else Quad(s[i..] + Zeros(4 - (|s| - i)))
  }

  /** The value of `calc_check_sum`. The code is only defined for four octets or more. */
  function CheckSum(s: seq<byte>): uint32 {
    SumWords(s, 0)
  }

  /** CCSDS 727.0-B-4, section 4.1.2: the sum of all words, the last padded with zeros. */
  function ModularSum(s: seq<byte>): uint32 {
    if s == [] then 0
    else if |s| < 4 then Quad(s + Zeros(4 - |s|))
    else Add32(Quad(s[..4]), ModularSum(s[4..]))
  }

  /** A word lies most significant octet first; what the last word lacks behind the end counts as zero. */
  lemma OneWordSum(s: seq<byte>)
    requires 0 < |s| <= 4
    ensures ModularSum(s) == FromBigEndian(s) * Pow256(4 - |s|)
  {
    Pow256Values();
    assert Pow256(3) == 256 * Pow256(2);
    FewOctets(s);
    if |s| == 4 { assert s[..4] == s && ModularSum(s[4..]) == 0; }
  }

  lemma FewOctets(s: seq<byte>)
    requires |s| <= 4
    ensures |s| == 0 ==> FromBigEndian(s) == 0
    ensures |s| == 1 ==> FromBigEndian(s) == s[0]
    ensures |s| == 2 ==> FromBigEndian(s) == 256 * (s[0] as int) + s[1]
    ensures |s| == 3 ==> FromBigEndian(s) == 256 * (256 * (s[0] as int) + s[1]) + s[2]
    ensures |s| == 4 ==> FromBigEndian(s) == 256 * (256 * (256 * (s[0] as int) + s[1]) + s[2]) + s[3]
  {
    if |s| > 0 { FewOctets(s[..|s| - 1]); }
  }

  lemma {:induction false} SumWordsIsModular(s: seq<byte>, i: nat)
    requires i <= |s| && |s| >= 4
    requires i % 4 == 0
    ensures |s| % 4 != 0 ==> SumWords(s, i) == ModularSum(s[i..])
    ensures |s| % 4 == 0 && i < |s| ==> Add32(SumWords(s, i), Word(s, |s| - 4)) == ModularSum(s[i..])
    decreases |s| - i
  {
    if i + 4 < |s| {
      SumWordsIsModular(s, i + 4);
      assert s[i..][..4] == s[i..i + 4];
      assert s[i..][4..] == s[i + 4..];
      assert ModularSum(s[i..]) == Add32(Word(s, i), ModularSum(s[i + 4..]));
      Add32Moves(Word(s, i), SumWords(s, i + 4), Word(s, |s| - 4));
    } else if i + 4 == |s| {
      assert s[i..][..4] == s[i..i + 4];
      assert s[i..][4..] == [];
    }
  }

  /** The code's sum is the standard's sum exactly when the length is no multiple of four or the last word is zero. */
  lemma MatchesStandardIff(s: seq<byte>)
    requires |s| >= 4
    ensures CheckSum(s) == ModularSum(s) <==> |s| % 4 != 0 || Word(s, |s| - 4) == 0
  {
    SumWordsIsModular(s, 0);
    assert s[0..] == s;
  }

  /** A segment of zeros sums to zero. */
  lemma {:induction false} ZeroSum(s: seq<byte>, i: nat)
    requires forall j :: 0 <= j < |s| ==> s[j] == 0
    ensures SumWords(s, i) == 0
    decreases |s| - i
  {
    if i + 4 < |s| { ZeroSum(s, i + 4); }
  }

  lemma Add32Moves(a: uint32, b: uint32, d: uint32)
    ensures Add32(Add32(a, b), d) == Add32(a, Add32(b, d))
  {
  }

  lemma SumNextWord(s: seq<byte>, i: nat)
    requires i + 4 < |s|
    ensures SumWords(s, i) == Add32(Word(s, i), SumWords(s, i + 4))
  {
  }

  lemma SumLastWord(s: seq<byte>, i: nat)
    requires i <= |s| <= i + 4 && i % 4 == 0
    ensures SumWords(s, i) ==
      if |s| % 4 == 0 then 0 else Quad(s[|s| - |s| % 4..] + Zeros(4 - |s| % 4))
  {
  }

  /** The summing loop over a buffer of at least four octets. */
  method CalcCheckSum(data: seq<byte>) returns (sum: uint32)
    requires 4 <= |data| < U32
    ensures sum == CheckSum(data)
  {
    hide SumWords, Word, Quad;
    sum := 0;
    var end := |data| - 4;
    var i := 0;
    while i < end
      invariant i <= end + 3 && i % 4 == 0
      invariant Add32(sum, SumWords(data, i)) == CheckSum(data)
    {
      SumNextWord(data, i);
      Add32Moves(sum, Word(data, i), SumWords(data, i + 4));
      sum := Add32(sum, Word(data, i));
      i := i + 4;
    }
    SumLastWord(data, i);
    if |data| % 4 != 0 {
      var last := LastChunk(data);
      sum := Add32(sum, last);
    }
  }

  method LastChunk(data: seq<byte>) returns (word: uint32)
    requires |data| % 4 != 0
    ensures var rest := |data| % 4; word == Quad(data[|data| - rest..] + Zeros(4 - rest))
  {
    var remaining := |data| % 4;
    var end := |data| - remaining;
    var chunk := new byte[4](_ => 0);
    var i := 0;
    while i < remaining
      invariant i <= remaining
      invariant forall k :: 0 <= k < 4 ==> chunk[k] == if k < i then data[end + k] else 0
    {
      chunk[i] := data[end + i];
      i := i + 1;
    }
    assert chunk[..] == data[end..] + Zeros(4 - remaining);
    word := Quad(chunk[..]);
  }
}
