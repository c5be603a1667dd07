/** Replacement of invalid UTF-8 (Utility.cpp).  The span routine of the library is
    modelled by its specification. */
module Utf8 {
  import opened Wrappers
  import opened Words

  const QUESTION: Byte := 0x3F

  predicate Tail(b: Byte) {
    0x80 <= b <= 0xBF
  }

  /** The length of the code point at the front, by the syntax of section 4 of RFC
      3629; zero if there is none. */
  function CharLen(s: seq<Byte>): (n: nat)
    ensures n <= |s| && n <= 4
  {
    if |s| >= 1 && s[0] <= 0x7F then 1
    else if |s| >= 2 && 0xC2 <= s[0] <= 0xDF && Tail(s[1]) then 2
    else if |s| >= 3 && Tail(s[2])
            && ((s[0] == 0xE0 && 0xA0 <= s[1] <= 0xBF) || (0xE1 <= s[0] <= 0xEC && Tail(s[1]))
                || (s[0] == 0xED && 0x80 <= s[1] <= 0x9F) || (0xEE <= s[0] <= 0xEF && Tail(s[1]))) then 3
    else if |s| >= 4 && Tail(s[2]) && Tail(s[3])
            && ((s[0] == 0xF0 && 0x90 <= s[1] <= 0xBF) || (0xF1 <= s[0] <= 0xF3 && Tail(s[1]))
                || (s[0] == 0xF4 && 0x80 <= s[1] <= 0x8F)) then 4
    else 0
  }

  // ----- code points by their numbers

  /** The numbers that can be encoded: no surrogates (section 3 of RFC 3629). */
  predicate Scalar(c: nat) {
    c < 0xD800 || 0xE000 <= c <= 0x10FFFF
  }

  /** The encoding of a number: its bits, six to a byte behind the first. */
  function Encoded(c: nat): (r: seq<Byte>)
    requires Scalar(c)
    ensures 1 <= |r| <= 4
  {
    if c < 0x80 then [c]
    else if c < 0x800 then [0xC0 + c / 64, 0x80 + c % 64]
    else if c < 0x10000 then [0xE0 + c / 4096, 0x80 + c / 64 % 64, 0x80 + c % 64]
    else [0xF0 + c / 262144, 0x80 + c / 4096 % 64, 0x80 + c / 64 % 64, 0x80 + c % 64]
  }

  /** A number with six more bits behind it. */
  function Appended(c: int, b: Byte): int {
    64 * c + (b as int - 0x80)
  }

  /** The number at the front. */
  function Decoded(s: seq<Byte>): (c: nat)
    requires CharLen(s) > 0
    ensures Scalar(c)
  {
    match CharLen(s)
    case 1 => s[0]
    case 2 => Appended(s[0] as int - 0xC0, s[1])
    case 3 => Appended(Appended(s[0] as int - 0xE0, s[1]), s[2])
    case _ => Appended(Appended(Appended(s[0] as int - 0xF0, s[1]), s[2]), s[3])
  }

  lemma AppendedSplits(c: int, b: Byte)
    requires c >= 0 && Tail(b)
    ensures Appended(c, b) / 64 == c && 0x80 + Appended(c, b) % 64 == b
  {
  }

  lemma DivideTwice(c: nat)
    ensures c / 4096 == c / 64 / 64 && c / 262144 == c / 64 / 64 / 64
  {
  }

  lemma DecodedIsEncoded(s: seq<Byte>)
    requires CharLen(s) > 0
    ensures Encoded(Decoded(s)) == s[..CharLen(s)]
  {
    match CharLen(s)
    case 1 => assert s[..1] == [s[0]];
    case 2 => DecodedTwo(s);
    case 3 => DecodedThree(s);
    case _ => DecodedFour(s);
  }

  lemma DecodedTwo(s: seq<Byte>)
    requires CharLen(s) == 2
    ensures Encoded(Decoded(s)) == s[..2]
  {
    AppendedSplits(s[0] as int - 0xC0, s[1]);
  }

  lemma DecodedThree(s: seq<Byte>)
    requires CharLen(s) == 3
    ensures Encoded(Decoded(s)) == s[..3]
  {
    var x := s[0] as int - 0xE0;
    var y := Appended(x, s[1]);
    AppendedSplits(x, s[1]);
    AppendedSplits(y, s[2]);
    DivideTwice(Decoded(s));
  }

  lemma DecodedFour(s: seq<Byte>)
    requires CharLen(s) == 4
    ensures Encoded(Decoded(s)) == s[..4]
  {
    var x := s[0] as int - 0xF0;
    var y := Appended(x, s[1]);
    var z := Appended(y, s[2]);
    AppendedSplits(x, s[1]);
    AppendedSplits(y, s[2]);
    AppendedSplits(z, s[3]);
    DivideTwice(Decoded(s));
  }

  lemma EncodedHasLength(c: nat, s: seq<Byte>)
    requires Scalar(c) && Encoded(c) <= s
    ensures CharLen(s) == |Encoded(c)|
  {
    var e := Encoded(c);
    assert forall i :: 0 <= i < |e| ==> s[i] == e[i];
    SixBits(c);
  }

  lemma SixBits(c: nat)
    ensures c / 64 == c / 4096 * 64 + c / 64 % 64
    ensures c / 4096 == c / 262144 * 64 + c / 4096 % 64
  {
    DivideTwice(c);
    Split(c / 64);
    Split(c / 4096);
  }

  lemma Split(q: nat)
    ensures q == q / 64 * 64 + q % 64
  {
  }

  /** A code point is at the front exactly if the encoding of some number is. */
  lemma CharLenIff(s: seq<Byte>, n: nat)
    requires n > 0
    ensures CharLen(s) == n <==> exists c :: Scalar(c) && |Encoded(c)| == n && Encoded(c) <= s
  {
    hide CharLen, Encoded, Decoded;
    if CharLen(s) == n {
      DecodedIsEncoded(s);
    }
    forall c | Scalar(c) && Encoded(c) <= s ensures CharLen(s) == |Encoded(c)| {
      EncodedHasLength(c, s);
    }
  }

  /** A sequence of code points. */
  predicate Valid(s: seq<Byte>) {
    s == [] || (CharLen(s) > 0 && Valid(s[CharLen(s)..]))
  }

  /** `SpanStructurallyValid`: the length of the code points at the front. */
  function Span(s: seq<Byte>): (n: nat)
    ensures n <= |s|
  {
    if CharLen(s) == 0 then 0 else CharLen(s) + Span(s[CharLen(s)..])
  }

  /** Whether a code point is at the front depends on its own bytes only. */
  lemma CharLenOfPrefix(s: seq<Byte>, n: nat)
    requires n <= |s|
    ensures CharLen(s[..n]) > 0 ==> CharLen(s[..n]) == CharLen(s)
    ensures CharLen(s) <= n ==> CharLen(s[..n]) == CharLen(s)
  {
  }

  /** The span is the longest valid prefix. */
  lemma {:induction false} SpanIsLongest(s: seq<Byte>, n: nat)
    requires n <= |s|
    ensures Valid(s[..Span(s)])
    ensures Valid(s[..n]) ==> n <= Span(s)
    decreases |s|
  {
    hide CharLen;
    var k, m := CharLen(s), Span(s);
    CharLenOfPrefix(s, m);
    CharLenOfPrefix(s, n);
    if k > 0 {
      var rest := s[k..];
      SpanIsLongest(rest, if n >= k then n - k else 0);
      assert s[..m][k..] == rest[..m - k];
      if n >= k {
        assert s[..n][k..] == rest[..n - k];
      }
    }
  }

  lemma SpanDecidesValid(s: seq<Byte>)
    ensures Span(s) == |s| <==> Valid(s)
  {
    SpanIsLongest(s, |s|);
    assert s[..|s|] == s;
  }

  lemma {:induction false} ValidConcat(s: seq<Byte>, t: seq<Byte>)
    requires Valid(s) && Valid(t)
    ensures Valid(s + t)
    decreases |s|
  {
    hide CharLen;
    if s == [] {
      assert s + t == t;
    } else {
      var k := CharLen(s);
      assert (s + t)[..|s|] == s;
      CharLenOfPrefix(s + t, |s|);
      ValidConcat(s[k..], t);
      assert (s + t)[k..] == s[k..] + t;
    }
  }

  lemma QuestionIsValid()
    ensures Valid([QUESTION])
  {
    assert [QUESTION][1..] == [];
  }

  /** One question mark for every byte at which no code point starts. */
  function Sanitized(s: seq<Byte>): (r: seq<Byte>)
    ensures |r| == |s|
  {
    var n := Span(s);
    if n == |s| then s else s[..n] + [QUESTION] + Sanitized(s[n + 1..])
  }

  /** The result is valid, and it is the input itself exactly if that is valid. */
  lemma {:induction false} SanitizedIsValid(s: seq<Byte>)
    ensures Valid(Sanitized(s))
    ensures Valid(s) <==> Sanitized(s) == s
    decreases |s|
  {
    hide CharLen, Valid;
    var n := Span(s);
    SpanDecidesValid(s);
    if n < |s| {
      SpanIsLongest(s, n);
      SanitizedIsValid(s[n + 1..]);
      QuestionIsValid();
      ValidConcat(s[..n], [QUESTION]);
      ValidConcat(s[..n] + [QUESTION], Sanitized(s[n + 1..]));
    }
  }

  /** The bytes at which a reader stands who takes the code points one by one, and one
      byte where none starts. */
  ghost predicate Boundary(s: seq<Byte>, i: nat) {
    i == 0 || (s != [] && StepLen(s) <= i && Boundary(s[StepLen(s)..], i - StepLen(s)))
  }

  function StepLen(s: seq<Byte>): (n: nat)
    requires s != []
    ensures 1 <= n <= |s|
  {
    if CharLen(s) == 0 then 1 else CharLen(s)
  }

  lemma SpanUnfolds(s: seq<Byte>)
    requires CharLen(s) > 0
    ensures Span(s) == CharLen(s) + Span(s[CharLen(s)..])
  {
    hide CharLen;
  }

  /** A code point at the front stays. */
  lemma FrontStays(s: seq<Byte>)
    requires CharLen(s) > 0
    ensures Sanitized(s) == s[..CharLen(s)] + Sanitized(s[CharLen(s)..])
  {
    hide CharLen, Sanitized, Span;
    var k := CharLen(s);
    var rest := s[k..];
    SpanUnfolds(s);
    if Span(rest) == |rest| {
      SanitizedWhole(s);
      SanitizedWhole(rest);
      assert s == s[..k] + rest;
    } else {
      SanitizedUnfolds(s);
      SanitizedUnfolds(rest);
      FrontSplits(s, k, Span(rest), Sanitized(s[Span(s) + 1..]));
    }
  }

  /** Where no code point starts, a question mark is put. */
  lemma FrontReplaced(s: seq<Byte>)
    requires s != [] && CharLen(s) == 0
    ensures Sanitized(s) == [QUESTION] + Sanitized(s[1..])
  {
    hide CharLen, Sanitized;
    SanitizedUnfolds(s);
    assert s[..0] == [];
  }

  lemma SanitizedWhole(s: seq<Byte>)
    requires Span(s) == |s|
    ensures Sanitized(s) == s
  {
  }

  lemma FrontSplits(s: seq<Byte>, k: nat, m: nat, end: seq<Byte>)
    requires k + m < |s|
    ensures s[k + m + 1..] == s[k..][m + 1..]
    ensures s[..k + m] + [QUESTION] + end == s[..k] + (s[k..][..m] + [QUESTION] + end)
  {
    assert s[..k + m] == s[..k] + s[k..][..m];
  }

  /** Byte by byte: replaced is exactly what a reader meets where no code point starts,
      so every code point that a reader meets survives as a whole. */
  lemma {:induction false} SanitizedDiffers(s: seq<Byte>, i: nat)
    requires i < |s|
    ensures Sanitized(s)[i] == if Boundary(s, i) && CharLen(s[i..]) == 0 then 0x3F else s[i]
    decreases |s|
  {
    hide CharLen, Sanitized;
    var k := StepLen(s);
    assert s[0..] == s;
    if CharLen(s) == 0 {
      FrontReplaced(s);
    } else {
      FrontStays(s);
    }
    if i >= k {
      var rest := s[k..];
      assert rest[i - k..] == s[i..] && rest[i - k] == s[i];
      SanitizedDiffers(rest, i - k);
      assert Sanitized(s)[i] == Sanitized(rest)[i - k];
    }
  }

  /** What the loop has made of the input so far: a sanitised front, then the rest. */
  ghost predicate Partly(input: seq<Byte>, output: seq<Byte>, front: seq<Byte>, str: seq<Byte>) {
    output == front + str && front + Sanitized(str) == Sanitized(input)
  }

  lemma Replace(front: seq<Byte>, str: seq<Byte>, n: nat)
    requires n < |str|
    ensures (front + str)[|front| + n := QUESTION] == front + str[..n] + [QUESTION] + str[n + 1..]
  {
  }

  lemma SanitizedUnfolds(s: seq<Byte>)
    requires Span(s) < |s|
    ensures Sanitized(s) == s[..Span(s)] + [QUESTION] + Sanitized(s[Span(s) + 1..])
  {
    hide Span;
  }

  lemma Regroup(a: seq<Byte>, b: seq<Byte>, c: seq<Byte>, d: seq<Byte>)
    ensures a + (b + c + d) == a + b + c + d
  {
  }

  lemma PartlyStep(input: seq<Byte>, output: seq<Byte>, front: seq<Byte>, str: seq<Byte>, len: nat)
    requires Partly(input, output, front, str) && len == Span(str) < |str|
    ensures Partly(input, output[|front| + len := QUESTION], front + str[..len] + [QUESTION], str[len + 1..])
  {
    hide Span, Sanitized;
    Replace(front, str, len);
    SanitizedUnfolds(str);
    Regroup(front, str[..len], [QUESTION], Sanitized(str[len + 1..]));
  }

  /** `SanitizedUTF8`: nothing if the input is valid, else a sanitised copy. */
  method SanitizeUTF8(input: seq<Byte>) returns (r: Option<seq<Byte>>)
    ensures r == if Valid(input) then None else Some(Sanitized(input))
  {
    hide Span, Valid;
    var str := input;
    var len := Span(str);
    SpanDecidesValid(str);
    if len == |str| {
      return None;
    }
    var output: seq<Byte>, i := input, len;
    ghost var front: seq<Byte> := [];
    while i < |output|
      invariant Partly(input, output, front, str)
      invariant len == Span(str) && |front| + |str| == |output|
      invariant if i < |output| then i == |front| + len && len < |str| else len == |str|
      decreases |str|
    {
      PartlyStep(input, output, front, str, len);
      output := output[i := QUESTION];
      front := front + str[..len] + [QUESTION];
      str := str[len + 1..];
      len := Span(str);
      i := i + len + 1;
    }
    return Some(output);
  }

  /** Sanitising a sanitised string changes nothing, so the routine returns nothing. */
  lemma SanitizedIsStable(s: seq<Byte>)
    ensures Valid(Sanitized(s)) && Sanitized(Sanitized(s)) == Sanitized(s)
  {
    hide Sanitized, Valid;
    SanitizedIsValid(s);
    SanitizedIsValid(Sanitized(s));
  }
}
