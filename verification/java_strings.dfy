/**
 * The few pieces of the Java string library that the modelled classes rely on:
 * decimal rendering of an int (string concatenation, Integer.toString),
 * Integer.parseInt, String.indexOf/contains, String.split with a literal
 * separator, the look-ahead split before every sign, String.trim and the
 * removal of all whitespace done with replaceAll("\\s+", "").
 */
module JavaStrings {
  import opened Wrappers

  const IntMin: int := -0x8000_0000
  const IntMax: int := 0x7fff_ffff

  // ---------------------------------------------------------------------------
  // Decimal digits
  // ---------------------------------------------------------------------------

  predicate IsDigit(c: char) { '0' <= c <= '9' }

  predicate AllDigits(s: string) { forall i :: 0 <= i < |s| ==> IsDigit(s[i]) }

  function DigitChar(d: nat): (c: char)
    requires d < 10
    ensures IsDigit(c)
  {
    (('0' as int) + d) as char
  }

  function DigitValue(c: char): (d: nat)
    requires IsDigit(c)
    ensures d < 10 && DigitChar(d) == c
  {
    (c as int) - ('0' as int)
  }

  /** The digits of n, most significant first, without leading zeros. */
  function NatDigits(n: nat): (r: string)
    ensures |r| > 0 && AllDigits(r)
    decreases n
  {
    if n < 10 then [DigitChar(n)] else NatDigits(n / 10) + [DigitChar(n % 10)]
  }

  /** The number a string of decimal digits denotes. */
  function DigitsValue(s: string): nat
    requires AllDigits(s)
  {
    if s == [] then 0 else DigitsValue(s[..|s| - 1]) * 10 + DigitValue(s[|s| - 1])
  }

  lemma {:induction false} DigitsRoundTrip(n: nat)
    ensures DigitsValue(NatDigits(n)) == n
    decreases n
  {
    var r := NatDigits(n);
    if n >= 10 {
      DigitsRoundTrip(n / 10);
      assert r[..|r| - 1] == NatDigits(n / 10);
      assert DigitValue(r[|r| - 1]) == n % 10;
    }
  }

  /** Integer.toString(n), which is also what `"" + n` produces. */
  function IntToString(n: int): (r: string)
    ensures |r| > 0
    ensures n >= 0 ==> AllDigits(r)
    ensures n < 0 ==> r[0] == '-' && AllDigits(r[1..])
  {
    if n < 0 then "-" + NatDigits(-n) else NatDigits(n)
  }

  lemma NatDigitsInjective(a: nat, b: nat)
    requires NatDigits(a) == NatDigits(b)
    ensures a == b
  {
    DigitsRoundTrip(a);
    DigitsRoundTrip(b);
  }

  /** Distinct integers are rendered as distinct strings. */
  lemma IntToStringInjective(a: int, b: int)
    requires IntToString(a) == IntToString(b)
    ensures a == b
  {
    var s := IntToString(a);
    if a < 0 {
      assert b < 0 by { assert !IsDigit(s[0]); }
      assert s[1..] == NatDigits(-a) == NatDigits(-b);
      NatDigitsInjective(-a, -b);
    } else {
      assert b >= 0 by { assert IsDigit(s[0]); }
      NatDigitsInjective(a, b);
    }
  }

  /** The int range check of Integer.parseInt: values outside it are a NumberFormatException. */
  function InIntRange(v: int): (r: Option<int>)
    ensures r.Some? <==> IntMin <= v <= IntMax
    ensures r.Some? ==> r.value == v
  {
    if IntMin <= v <= IntMax then Some(v) else None
  }

  /**
   * Integer.parseInt(s) in radix 10: an optional leading '+' or '-', then at
   * least one digit and nothing else, and a value that fits in 32 bits.
   * None stands for the NumberFormatException it throws otherwise.
   */
  function ParseInt(s: string): (r: Option<int>)
    ensures r.Some? ==> IntMin <= r.value <= IntMax
    ensures r.Some? && r.value < 0 ==> |s| > 0 && s[0] == '-'
  {
    if |s| == 0 then None
    else if s[0] == '-' || s[0] == '+' then
      if |s| == 1 || !AllDigits(s[1..]) then None
      else if s[0] == '-' then InIntRange(0 - DigitsValue(s[1..]))
      else InIntRange(DigitsValue(s[1..]))
    else if AllDigits(s) then InIntRange(DigitsValue(s))
    else None
  }

  /** Integer.parseInt accepts only an optional sign followed by at least one digit. */
  lemma ParseIntAccepts(s: string)
    requires ParseInt(s).Some?
    ensures |s| > 0 && AllDigits(if IsSign(s[0]) then s[1..] else s)
    ensures IsSign(s[0]) ==> |s| > 1
  {
  }

  /** Integer.toString writes only digits and a leading minus sign. */
  lemma IntToStringChars(n: int)
    ensures forall c :: c in IntToString(n) ==> IsDigit(c) || c == '-'
  {
    var r := IntToString(n);
    forall c | c in r ensures IsDigit(c) || c == '-' {
      var i :| 0 <= i < |r| && r[i] == c;
      if n < 0 && i > 0 { assert r[1..][i - 1] == c; }
    }
  }

  /**
   * Two texts that agree up to a delimiter c that neither leading part
   * contains agree on the leading parts and on what follows the delimiter.
   */
  lemma CutAtDelimiter(x: string, rx: string, y: string, ry: string, c: char)
    requires c !in x && c !in y
    requires x + [c] + rx == y + [c] + ry
    ensures x == y && rx == ry
  {
    var s := x + [c] + rx;
    assert s[|x|] == c && s[|y|] == c;
    assert forall i :: 0 <= i < |y| ==> s[i] == y[i];
    assert forall i :: 0 <= i < |x| ==> s[i] == x[i];
    assert |x| == |y|;
    assert x == s[..|x|] == y;
    assert rx == s[|x| + 1..] == ry;
  }

  /** Integer.parseInt reads back every int that Integer.toString writes. */
  lemma IntToStringRoundTrip(n: int)
    requires IntMin <= n <= IntMax
    ensures ParseInt(IntToString(n)) == Some(n)
  {
    var s := IntToString(n);
    if n < 0 {
      assert s[1..] == NatDigits(-n);
      DigitsRoundTrip(-n);
    } else {
      assert !(s[0] == '-' || s[0] == '+') by { assert IsDigit(s[0]); }
      DigitsRoundTrip(n);
    }
  }

  // ---------------------------------------------------------------------------
  // Searching and splitting
  // ---------------------------------------------------------------------------

  predicate OccursAt(s: string, pat: string, i: int) {
    0 <= i && i + |pat| <= |s| && s[i..i + |pat|] == pat
  }

  /** String.indexOf: the first position where pat occurs, or -1. */
  function IndexOf(s: string, pat: string): (r: int)
    ensures r == -1 || (0 <= r && r + |pat| <= |s|)
  {
    IndexFrom(s, pat, 0)
  }

  /** The first position at or after k where pat occurs, or -1. */
  function IndexFrom(s: string, pat: string, k: nat): (r: int)
    requires k <= |s|
    ensures r == -1 || (k <= r && r + |pat| <= |s|)
    decreases |s| - k
  {
    if k + |pat| > |s| then -1
    else if s[k..k + |pat|] == pat then k
    else IndexFrom(s, pat, k + 1)
  }

  /** indexOf finds the first occurrence of pat, and gives -1 exactly when there is none. */
  lemma IndexOfSpec(s: string, pat: string)
    ensures IndexOf(s, pat) >= 0 ==> OccursAt(s, pat, IndexOf(s, pat))
    ensures forall j :: 0 <= j < IndexOf(s, pat) ==> !OccursAt(s, pat, j)
    ensures IndexOf(s, pat) == -1 <==> forall j :: !OccursAt(s, pat, j)
  {
    IndexFromSpec(s, pat, 0);
  }

  lemma {:induction false} IndexFromSpec(s: string, pat: string, k: nat)
    requires k <= |s|
    ensures IndexFrom(s, pat, k) >= 0 ==> OccursAt(s, pat, IndexFrom(s, pat, k))
    ensures forall j :: k <= j < IndexFrom(s, pat, k) ==> !OccursAt(s, pat, j)
    ensures IndexFrom(s, pat, k) == -1 <==> forall j :: k <= j ==> !OccursAt(s, pat, j)
    decreases |s| - k
  {
    if k + |pat| > |s| {
      assert forall j :: k <= j ==> !OccursAt(s, pat, j);
    } else if s[k..k + |pat|] == pat {
      assert OccursAt(s, pat, k);
    } else {
      IndexFromSpec(s, pat, k + 1);
      assert !OccursAt(s, pat, k);
    }
  }

  /** String.contains. */
  predicate Contains(s: string, pat: string) { IndexOf(s, pat) >= 0 }

  /** The pieces between the occurrences of pat, found left to right without overlap. */
  function SplitPieces(s: string, pat: string): (r: seq<string>)
    requires |pat| > 0
    ensures |r| > 0
    decreases |s|
  {
    var i := IndexOf(s, pat);
    if i < 0 then [s] else [s[..i]] + SplitPieces(s[i + |pat|..], pat)
  }

  function DropTrailingEmpty(ps: seq<string>): (r: seq<string>)
    ensures |r| <= |ps| && r == ps[..|r|]
    ensures |r| > 0 ==> r[|r| - 1] != ""
    ensures forall k :: |r| <= k < |ps| ==> ps[k] == ""
  {
    if |ps| > 0 && ps[|ps| - 1] == "" then DropTrailingEmpty(ps[..|ps| - 1]) else ps
  }

  /**
   * String.split with a separator that has no regular-expression meaning
   * ("&&", "==", ">=", "<="): when pat does not occur the result is [s];
   * otherwise the pieces, with the trailing empty ones removed.
   */
  function Split(s: string, pat: string): seq<string>
    requires |pat| > 0
  {
    if IndexOf(s, pat) < 0 then [s] else DropTrailingEmpty(SplitPieces(s, pat))
  }

  function Join(ps: seq<string>, sep: string): string
    requires |ps| > 0
  {
    if |ps| == 1 then ps[0] else ps[0] + sep + Join(ps[1..], sep)
  }

  /** Splitting loses nothing: the pieces joined by the separator give back s. */
  lemma {:induction false} SplitPiecesJoin(s: string, pat: string)
    requires |pat| > 0
    ensures Join(SplitPieces(s, pat), pat) == s
    decreases |s|
  {
    var i := IndexOf(s, pat);
    if i >= 0 {
      var rest := s[i + |pat|..];
      var ps := SplitPieces(s, pat);
      SplitPiecesJoin(rest, pat);
      assert ps == [s[..i]] + SplitPieces(rest, pat);
      assert ps[0] == s[..i] && ps[1..] == SplitPieces(rest, pat);
      SplitAtFirst(s, pat, i);
    }
  }

  /** No piece holds the separator. */
  lemma SplitPiecesFree(s: string, pat: string)
    requires |pat| > 0
    ensures forall k :: 0 <= k < |SplitPieces(s, pat)| ==> !Contains(SplitPieces(s, pat)[k], pat)
  {
    forall k | 0 <= k < |SplitPieces(s, pat)| ensures !Contains(SplitPieces(s, pat)[k], pat) {
      PieceFree(s, pat, k);
    }
  }

  lemma {:induction false} PieceFree(s: string, pat: string, k: nat)
    requires |pat| > 0 && k < |SplitPieces(s, pat)|
    ensures !Contains(SplitPieces(s, pat)[k], pat)
    decreases |s|
  {
    var i := IndexOf(s, pat);
    if i < 0 {
      assert SplitPieces(s, pat) == [s];
    } else {
      var rest := s[i + |pat|..];
      assert SplitPieces(s, pat) == [s[..i]] + SplitPieces(rest, pat);
      if k == 0 {
        BeforeFirstHasNone(s, pat, i);
      } else {
        PieceFree(rest, pat, k - 1);
      }
    }
  }

  /** An occurrence with none before it is the one indexOf finds. */
  lemma FirstOccurrence(s: string, pat: string, i: int)
    requires OccursAt(s, pat, i) && forall j :: 0 <= j < i ==> !OccursAt(s, pat, j)
    ensures IndexOf(s, pat) == i
  {
    IndexOfSpec(s, pat);
  }

  /** A text without the first character of pat does not contain pat. */
  lemma AbsentLead(x: string, pat: string)
    requires |pat| > 0 && pat[0] !in x
    ensures IndexOf(x, pat) == -1 && !Contains(x, pat)
  {
    IndexOfSpec(x, pat);
    forall j | 0 <= j && j + |pat| <= |x| ensures !OccursAt(x, pat, j) {
      assert x[j..j + |pat|][0] == x[j];
    }
  }

  /** When x lacks the first character of pat, the first cut of x + pat + rest falls right after x. */
  lemma PiecesAfterLead(x: string, pat: string, rest: string)
    requires |pat| > 0 && pat[0] !in x
    ensures IndexOf(x + pat + rest, pat) == |x|
    ensures SplitPieces(x + pat + rest, pat) == [x] + SplitPieces(rest, pat)
  {
    var s := x + pat + rest;
    assert s[|x|..|x| + |pat|] == pat;
    forall j | 0 <= j < |x| ensures !OccursAt(s, pat, j) {
      assert s[j..j + |pat|][0] == s[j] == x[j];
    }
    FirstOccurrence(s, pat, |x|);
    assert s[..|x|] == x;
    assert s[|x| + |pat|..] == rest;
  }

  /** Without the first character of pat, x is a single piece. */
  lemma PiecesWithoutLead(x: string, pat: string)
    requires |pat| > 0 && pat[0] !in x
    ensures SplitPieces(x, pat) == [x]
  {
    AbsentLead(x, pat);
  }

  /** Splitting x + pat + y, neither of which holds the first character of pat, gives x and y. */
  lemma SplitTwo(x: string, pat: string, y: string)
    requires |pat| > 0 && pat[0] !in x && pat[0] !in y && y != ""
    ensures Split(x + pat + y, pat) == [x, y]
  {
    PiecesAfterLead(x, pat, y);
    PiecesWithoutLead(y, pat);
    assert SplitPieces(x + pat + y, pat) == [x, y];
  }

  /** Splitting x + pat + y + pat + z keeps x and y as its first two pieces, whatever z is. */
  lemma SplitFirstTwo(x: string, pat: string, y: string, z: string)
    requires |pat| > 0 && pat[0] !in x && pat[0] !in y && y != ""
    ensures |Split(x + pat + (y + pat + z), pat)| >= 2
    ensures Split(x + pat + (y + pat + z), pat)[..2] == [x, y]
  {
    var rest := y + pat + z;
    PiecesAfterLead(x, pat, rest);
    PiecesAfterLead(y, pat, z);
    var ps := SplitPieces(x + pat + rest, pat);
    assert ps[..2] == [x, y];
    KeepsNonEmpty(ps, 1);
  }

  /** Only empty pieces are dropped, so a non-empty piece and all before it stay. */
  lemma KeepsNonEmpty(ps: seq<string>, k: nat)
    requires k < |ps| && ps[k] != ""
    ensures k < |DropTrailingEmpty(ps)| && DropTrailingEmpty(ps)[..k + 1] == ps[..k + 1]
  {
    var r := DropTrailingEmpty(ps);
    assert r[..k + 1] == ps[..|r|][..k + 1];
  }

  /** A separator at the very end leaves no piece after it. */
  lemma SplitTrailing(x: string, pat: string)
    requires |pat| > 0 && pat[0] !in x
    ensures Split(x + pat, pat) == if x == "" then [] else [x]
  {
    assert x + pat == x + pat + "";
    PiecesAfterLead(x, pat, "");
    PiecesWithoutLead("", pat);
    assert SplitPieces(x + pat, pat) == [x, ""];
    assert DropTrailingEmpty([x, ""]) == DropTrailingEmpty([x]);
  }

  /** Cutting s at the first occurrence i of pat: s is the part before, pat and the part after. */
  lemma SplitAtFirst(s: string, pat: string, i: int)
    requires |pat| > 0 && i == IndexOf(s, pat) && i >= 0
    ensures s == s[..i] + pat + s[i + |pat|..]
    ensures !Contains(s[..i], pat)
  {
    IndexOfSpec(s, pat);
    assert s[i..i + |pat|] == pat;
    assert s == s[..i] + s[i..i + |pat|] + s[i + |pat|..];
    BeforeFirstHasNone(s, pat, i);
  }

  lemma BeforeFirstHasNone(s: string, pat: string, i: int)
    requires |pat| > 0 && i == IndexOf(s, pat) && i >= 0
    ensures !Contains(s[..i], pat)
  {
    var j := IndexOf(s[..i], pat);
    IndexOfSpec(s, pat);
    IndexOfSpec(s[..i], pat);
    if j >= 0 {
      assert OccursAt(s[..i], pat, j);
      assert s[..i][j..j + |pat|] == s[j..j + |pat|];
      assert OccursAt(s, pat, j);
      assert false;
    }
  }

  // ---------------------------------------------------------------------------
  // The look-ahead split `split("(?=[+-])")`
  // ---------------------------------------------------------------------------

  predicate IsSign(c: char) { c == '+' || c == '-' }

  /** The first position at or after k holding a sign, or |s|. */
  function NextSign(s: string, k: nat): (r: nat)
    requires k <= |s|
    ensures k <= r <= |s|
    ensures r < |s| ==> IsSign(s[r])
    decreases |s| - k
  {
    if k == |s| || IsSign(s[k]) then k else NextSign(s, k + 1)
  }

  /** No sign lies between k and the position NextSign finds. */
  lemma {:induction false} NextSignSpec(s: string, k: nat)
    requires k <= |s|
    ensures forall j :: k <= j < NextSign(s, k) ==> !IsSign(s[j])
    decreases |s| - k
  {
    if k < |s| && !IsSign(s[k]) {
      NextSignSpec(s, k + 1);
    }
  }

  /** The chunks of a non-empty string cut just before every sign after its first character. */
  function SignChunks(s: string): (r: seq<string>)
    requires |s| > 0
    ensures |r| > 0
    decreases |s|
  {
    var k := NextSign(s, 1);
    if k == |s| then [s] else [s[..k]] + SignChunks(s[k..])
  }

  /**
   * side.split("(?=[+-])"): a zero-width match at the start produces no
   * leading empty piece, so an empty side gives [""] and any other side its chunks.
   */
  function SignTokens(s: string): (r: seq<string>)
    ensures |r| > 0
  {
    if s == "" then [""] else SignChunks(s)
  }

  function Concat(ps: seq<string>): string {
    if ps == [] then "" else ps[0] + Concat(ps[1..])
  }

  /** Every chunk is non-empty, carries a sign at most in front, and the chunks concatenate back to s. */
  lemma {:induction false} SignChunksShape(s: string)
    requires |s| > 0
    ensures Concat(SignChunks(s)) == s
    ensures forall k :: 0 <= k < |SignChunks(s)| ==>
      |SignChunks(s)[k]| > 0 && forall j :: 1 <= j < |SignChunks(s)[k]| ==> !IsSign(SignChunks(s)[k][j])
    ensures forall k :: 1 <= k < |SignChunks(s)| ==> IsSign(SignChunks(s)[k][0])
    decreases |s|
  {
    var k := NextSign(s, 1);
    var r := SignChunks(s);
    NextSignSpec(s, 1);
    if k < |s| {
      SignChunksShape(s[k..]);
      assert r[1..] == SignChunks(s[k..]);
      assert Concat(r) == s[..k] + Concat(r[1..]);
      assert s == s[..k] + s[k..];
      forall i | 0 <= i < |r| ensures |r[i]| > 0 && forall j :: 1 <= j < |r[i]| ==> !IsSign(r[i][j]) {
        if i > 0 { assert r[i] == SignChunks(s[k..])[i - 1]; }
      }
      forall i | 1 <= i < |r| ensures IsSign(r[i][0]) {
        if i > 1 { assert r[i] == SignChunks(s[k..])[i - 1]; }
      }
    } else {
      assert r == [s];
      assert Concat(r) == s + Concat([]);
    }
  }

  /** Cutting a + b where b starts with a sign cuts a and b separately. */
  lemma {:induction false} SignChunksAppend(a: string, b: string)
    requires |a| > 0 && |b| > 0 && IsSign(b[0])
    ensures SignChunks(a + b) == SignChunks(a) + SignChunks(b)
    decreases |a|
  {
    var k := NextSign(a, 1);
    NextSignAppend(a, b);
    var s := a + b;
    assert k < |s| && SignChunks(s) == [s[..k]] + SignChunks(s[k..]);
    if k < |a| {
      assert s[..k] == a[..k];
      assert s[k..] == a[k..] + b;
      SignChunksAppend(a[k..], b);
      assert SignChunks(a) == [a[..k]] + SignChunks(a[k..]);
    } else {
      assert s[..k] == a;
      assert s[k..] == b;
      assert SignChunks(a) == [a];
    }
  }

  /** A sign at the head of b makes the first cut of a + b fall where that of a does. */
  lemma NextSignAppend(a: string, b: string)
    requires |a| > 0 && |b| > 0 && IsSign(b[0])
    ensures NextSign(a + b, 1) == NextSign(a, 1)
  {
    var s := a + b;
    var k := NextSign(a, 1);
    NextSignSpec(a, 1);
    assert forall j :: 1 <= j < k ==> !IsSign(s[j]) by {
      assert forall j :: 1 <= j < k ==> s[j] == a[j];
    }
    assert IsSign(s[k]) by {
      if k < |a| { assert s[k] == a[k]; } else { assert s[k] == b[0]; }
    }
    NextSignIsFirst(s, 1, k);
  }

  lemma {:induction false} NextSignIsFirst(s: string, k: nat, m: nat)
    requires k <= m <= |s|
    requires forall j :: k <= j < m ==> !IsSign(s[j])
    requires m == |s| || IsSign(s[m])
    ensures NextSign(s, k) == m
    decreases m - k
  {
    if k < m {
      NextSignIsFirst(s, k + 1, m);
    }
  }

  // ---------------------------------------------------------------------------
  // Whitespace
  // ---------------------------------------------------------------------------

  /** The characters the regular expression \s matches. */
  predicate IsWhitespace(c: char) {
    c == ' ' || c == '\t' || c == '\n' || c == '\U{0B}' || c == '\U{0C}' || c == '\r'
  }

  /** s.replaceAll("\\s+", ""): every whitespace character removed, the rest kept in order. */
  function StripWhitespace(s: string): (r: string)
    ensures |r| <= |s|
    ensures forall i :: 0 <= i < |r| ==> !IsWhitespace(r[i])
    ensures forall c :: c in r ==> c in s
  {
    if s == "" then ""
    else if IsWhitespace(s[0]) then StripWhitespace(s[1..])
    else [s[0]] + StripWhitespace(s[1..])
  }

  /** Stripping distributes over concatenation. */
  lemma {:induction false} StripWhitespaceAppend(a: string, b: string)
    ensures StripWhitespace(a + b) == StripWhitespace(a) + StripWhitespace(b)
    decreases |a|
  {
    if a != "" {
      assert (a + b)[1..] == a[1..] + b;
      StripWhitespaceAppend(a[1..], b);
    } else {
      assert a + b == b;
    }
  }

  /** A string without whitespace is left as it is; in particular stripping is idempotent. */
  lemma {:induction false} StripWhitespaceNoop(s: string)
    requires forall i :: 0 <= i < |s| ==> !IsWhitespace(s[i])
    ensures StripWhitespace(s) == s
    decreases |s|
  {
    if s != "" {
      StripWhitespaceNoop(s[1..]);
    }
  }

  /** A string made only of whitespace strips to nothing. */
  lemma {:induction false} StripWhitespaceAllBlank(w: string)
    requires forall i :: 0 <= i < |w| ==> IsWhitespace(w[i])
    ensures StripWhitespace(w) == ""
    decreases |w|
  {
    if w != "" {
      StripWhitespaceAllBlank(w[1..]);
    }
  }

  /** String.trim: leading and trailing characters up to and including ' ' removed. */
  function Trim(s: string): (r: string)
    ensures |r| <= |s|
    ensures r != "" ==> r[0] > ' ' && r[|r| - 1] > ' '
    ensures (s != "" && s[0] > ' ' && s[|s| - 1] > ' ') ==> r == s
  {
    var st := SkipBlanks(s, 0);
    s[st..DropBlanks(s, st, |s|)]
  }

  /**
   * Trim removes only characters up to ' ', and only at the two ends: the
   * result is a slice s[i..j] of the input with nothing but such characters
   * before i and from j on.
   */
  lemma TrimRemovesEnds(s: string)
    ensures exists i, j ::
      && 0 <= i <= j <= |s|
      && Trim(s) == s[i..j]
      && (forall k :: 0 <= k < i ==> s[k] <= ' ')
      && (forall k :: j <= k < |s| ==> s[k] <= ' ')
  {
    var st := SkipBlanks(s, 0);
    var en := DropBlanks(s, st, |s|);
    SkipBlanksSkipsBlanks(s, 0);
    DropBlanksDropsBlanks(s, st, |s|);
    assert Trim(s) == s[st..en];
  }

  /** Everything SkipBlanks passes over is a character up to ' '. */
  lemma {:induction false} SkipBlanksSkipsBlanks(s: string, i: nat)
    requires i <= |s|
    ensures forall k :: i <= k < SkipBlanks(s, i) ==> s[k] <= ' '
    decreases |s| - i
  {
    if i < |s| && s[i] <= ' ' {
      SkipBlanksSkipsBlanks(s, i + 1);
    }
  }

  /** Everything DropBlanks cuts off is a character up to ' '. */
  lemma {:induction false} DropBlanksDropsBlanks(s: string, lo: nat, len: nat)
    requires lo <= len <= |s|
    ensures forall k :: DropBlanks(s, lo, len) <= k < len ==> s[k] <= ' '
    decreases len
  {
    if len > lo && s[len - 1] <= ' ' {
      DropBlanksDropsBlanks(s, lo, len - 1);
    }
  }

  /** The first position at or after i that holds a character above ' ', or |s|. */
  function SkipBlanks(s: string, i: nat): (r: nat)
    requires i <= |s|
    ensures i <= r <= |s|
    ensures r < |s| ==> s[r] > ' '
    decreases |s| - i
  {
    if i < |s| && s[i] <= ' ' then SkipBlanks(s, i + 1) else i
  }

  /** The end of s[lo..len] once the characters up to ' ' at its end are dropped. */
  function DropBlanks(s: string, lo: nat, len: nat): (r: nat)
    requires lo <= len <= |s|
    ensures lo <= r <= len
    ensures r > lo ==> s[r - 1] > ' '
    decreases len
  {
    if len > lo && s[len - 1] <= ' ' then DropBlanks(s, lo, len - 1) else len
  }

  predicate StartsWith(s: string, prefix: string) {
    |prefix| <= |s| && s[..|prefix|] == prefix
  }
}
