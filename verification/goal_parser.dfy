/**
 * SimpleGoalParser: turns a text such as "v[0] + v[1] == 4 && v[2] >= 1" into
 * a goal condition on the volumes.
 *
 * parse only chooses the operator and cuts the text into sides; the sides are
 * read each time the returned condition is evaluated. So the closures it
 * returns are modelled as a condition tree (Cond), and evaluating one as a
 * function (Eval) whose errors are separate from those of parsing: a bad
 * number or container index shows up only at evaluation.
 */
module GoalParser {
  import opened Wrappers
  import opened JavaStrings
  import opened States

  datatype Op = Eq | Ge | Le

  /** The operators in the order parseSingle tries them. */
  const Operators: seq<Op> := [Eq, Ge, Le]

  /** The position of op in Operators. */
  function Rank(op: Op): (r: nat)
    ensures r < |Operators| && Operators[r] == op
  {
    match op
    case Eq => 0
    case Ge => 1
    case Le => 2
  }

  function OpText(op: Op): string {
    match op
    case Eq => "=="
    case Ge => ">="
    case Le => "<="
  }

  /** What the comparison returned by parseSingle decides for two side values. */
  function Holds(op: Op, x: int, y: int): bool {
    match op
    case Eq => x == y
    case Ge => x >= y
    case Le => x <= y
  }

  /**
   * The condition a parse returns: one comparison, holding its operator, its
   * two sides as raw text and the container count it was parsed with; or the
   * conjunction built for "&&".
   */
  datatype Cond =
    | Cmp(op: Op, left: string, right: string, numContainers: int)
    | And(first: Cond, second: Cond)

  /** The exceptions parse throws. */
  datatype ParseError =
    | UnsupportedOperation   // no "==", ">=" or "<=" in the text
    | InvalidFormat          // the split on the operator does not give two pieces
    | MissingPart            // parts[0] or parts[1] of the "&&" split does not exist

  /** The exceptions evaluating a condition throws. */
  datatype EvalError =
    | NumberFormat           // Integer.parseInt refused a number or an index
    | InvalidIndex(idx: int) // an index outside 0 .. numContainers - 1
    | ArrayIndex             // an index below numContainers but beyond the volumes
    | StringIndex            // the token "v[", too short for substring(2, length - 1)

  // ---------------------------------------------------------------------------
  // Parsing
  // ---------------------------------------------------------------------------

  /** The first operator at or after position k of Operators that occurs in expr. */
  function FirstOperatorFrom(expr: string, k: nat): Option<Op>
    requires k <= |Operators|
    decreases |Operators| - k
  {
    if k == |Operators| then None
    else if Contains(expr, OpText(Operators[k])) then Some(Operators[k])
    else FirstOperatorFrom(expr, k + 1)
  }

  /**
   * The selection is by priority, not by position in the text: the chosen
   * operator occurs, every operator tried before it does not, and there is
   * no choice exactly when none occurs.
   */
  lemma {:induction false} FirstOperatorSpec(expr: string, k: nat)
    requires k <= |Operators|
    ensures FirstOperatorFrom(expr, k).Some? ==> Contains(expr, OpText(FirstOperatorFrom(expr, k).value))
    ensures FirstOperatorFrom(expr, k).Some? ==>
      (k <= Rank(FirstOperatorFrom(expr, k).value) &&
       forall m :: k <= m < Rank(FirstOperatorFrom(expr, k).value) ==> !Contains(expr, OpText(Operators[m])))
    ensures FirstOperatorFrom(expr, k).None? <==> forall m :: k <= m < |Operators| ==> !Contains(expr, OpText(Operators[m]))
    decreases |Operators| - k
  {
    if k < |Operators| && !Contains(expr, OpText(Operators[k])) {
      FirstOperatorSpec(expr, k + 1);
    }
  }

  /** The operator parseSingle selects: the first of "==", ">=", "<=" that occurs. */
  function FirstOperator(expr: string): Option<Op> {
    FirstOperatorFrom(expr, 0)
  }

  /** The selection loop of parseSingle, with its early break. */
  method SelectOperator(expr: string) returns (selected: Option<Op>)
    ensures selected == FirstOperator(expr)
  {
    selected := None;
    for k := 0 to |Operators|
      invariant FirstOperatorFrom(expr, k) == FirstOperator(expr)
    {
      if Contains(expr, OpText(Operators[k])) {
        selected := Some(Operators[k]);
        break;
      }
    }
  }

  /** parseSingle: choose the operator, split on it and keep the two sides. */
  function ParseSingle(expr: string, numContainers: int): Result<Cond, ParseError> {
    match FirstOperator(expr)
    case None => Err(UnsupportedOperation)
    case Some(op) =>
      var sides := Split(expr, OpText(op));
      if |sides| != 2 then Err(InvalidFormat) else Ok(Cmp(op, sides[0], sides[1], numContainers))
  }

  /**
   * parse: remove all whitespace; with "&&" parse the first two pieces of the
   * split on it (the first before looking at the second) and join them,
   * otherwise parse the whole text as one comparison.
   */
  function Parse(expr: string, numContainers: int): Result<Cond, ParseError> {
    var e := StripWhitespace(expr);
    if Contains(e, "&&") then
      var parts := Split(e, "&&");
      if |parts| == 0 then Err(MissingPart)
      else match ParseSingle(parts[0], numContainers)
        case Err(err) => Err(err)
        case Ok(left) =>
          if |parts| < 2 then Err(MissingPart)
          else match ParseSingle(parts[1], numContainers)
            case Err(err) => Err(err)
            case Ok(right) => Ok(And(left, right))
    else
      ParseSingle(e, numContainers)
  }

  // ---------------------------------------------------------------------------
  // Evaluation
  // ---------------------------------------------------------------------------

  /**
   * What one token of a side adds to the result: nothing for a token that
   * trims to empty; otherwise its sign times the value of the rest.
   */
  function TokenValue(token: string, volumes: State, numContainers: int): Result<int, EvalError> {
    var t := Trim(token);
    if t == "" then Ok(0)
    else if t[0] == '+' then TermValue(t[1..], 1, volumes, numContainers)
    else if t[0] == '-' then TermValue(t[1..], -1, volumes, numContainers)
    else TermValue(t, 1, volumes, numContainers)
  }

  /**
   * A token without its sign, times the sign: either the volume v[idx] or the
   * integer it spells. The index is read from between "v[" and the last
   * character, whatever that character is.
   */
  function TermValue(body: string, sign: int, volumes: State, numContainers: int): Result<int, EvalError> {
    if StartsWith(body, "v[") then
      if |body| < 3 then Err(StringIndex)
      else match ParseInt(body[2..|body| - 1])
        case None => Err(NumberFormat)
        case Some(idx) =>
          if idx < 0 || idx >= numContainers then Err(InvalidIndex(idx))
          else if idx >= |volumes| then Err(ArrayIndex)
          else Ok(sign * volumes[idx])
    else match ParseInt(body)
      case None => Err(NumberFormat)
      case Some(x) => Ok(sign * x)
  }

  /** The token loop of evaluateSide from token k on, with acc summed so far; the first failing token ends it. */
  function SumTokens(tokens: seq<string>, k: nat, acc: int, volumes: State, numContainers: int): Result<int, EvalError>
    requires k <= |tokens|
    decreases |tokens| - k
  {
    if k == |tokens| then Ok(acc)
    else
      var x := TokenValue(tokens[k], volumes, numContainers);
      if x.Err? then Err(x.error) else SumTokens(tokens, k + 1, acc + x.value, volumes, numContainers)
  }

  /** One token of the loop: its error ends the sum, its value is added to the sum. */
  lemma SumTokensStep(tokens: seq<string>, k: nat, acc: int, volumes: State, numContainers: int)
    requires k < |tokens|
    ensures TokenValue(tokens[k], volumes, numContainers).Err? ==>
      SumTokens(tokens, k, acc, volumes, numContainers) == Err(TokenValue(tokens[k], volumes, numContainers).error)
    ensures TokenValue(tokens[k], volumes, numContainers).Ok? ==>
      SumTokens(tokens, k, acc, volumes, numContainers)
      == SumTokens(tokens, k + 1, acc + TokenValue(tokens[k], volumes, numContainers).value, volumes, numContainers)
  {
  }

  /** evaluateSide: the total volume for "sum", else the signed sum of the tokens of the look-ahead split. */
  function SideValue(side: string, volumes: State, numContainers: int): Result<int, EvalError> {
    if side == "sum" then Ok(Sum(volumes))
    else SumTokens(SignTokens(side), 0, 0, volumes, numContainers)
  }

  /** The body of the token loop of evaluateSide: trim, skip if empty, read the sign, then the index or the number. */
  method ReadToken(token: string, volumes: State, numContainers: int) returns (r: Result<int, EvalError>)
    ensures r == TokenValue(token, volumes, numContainers)
  {
    var t := Trim(token);
    if t == "" {
      return Ok(0);
    }
    var sign := 1;
    if t[0] == '+' {
      t := t[1..];
    } else if t[0] == '-' {
      t := t[1..];
      sign := -1;
    }
    assert TokenValue(token, volumes, numContainers) == TermValue(t, sign, volumes, numContainers);
    if StartsWith(t, "v[") {
      if |t| < 3 {
        return Err(StringIndex);
      }
      var idx := ParseInt(t[2..|t| - 1]);
      if idx.None? {
        return Err(NumberFormat);
      }
      if idx.value < 0 || idx.value >= numContainers {
        return Err(InvalidIndex(idx.value));
      }
      if idx.value >= |volumes| {
        return Err(ArrayIndex);
      }
      return Ok(sign * volumes[idx.value]);
    }
    var x := ParseInt(t);
    if x.None? {
      return Err(NumberFormat);
    }
    return Ok(sign * x.value);
  }

  /** evaluateSide as written: the loop over the tokens, skipping empty ones and stopping at the first error. */
  method EvaluateSide(side: string, volumes: State, numContainers: int) returns (r: Result<int, EvalError>)
    ensures r == SideValue(side, volumes, numContainers)
  {
    if side == "sum" {
      return Ok(Sum(volumes));
    }
    var result := 0;
    var tokens := SignTokens(side);
    for k := 0 to |tokens|
      invariant SumTokens(tokens, k, result, volumes, numContainers) == SideValue(side, volumes, numContainers)
    {
      var term := ReadToken(tokens[k], volumes, numContainers);
      if term.Err? {
        return Err(term.error);
      }
      result := result + term.value;
    }
    return Ok(result);
  }

  /**
   * Evaluating a condition: a comparison reads its left side, then its right
   * side, then compares; a conjunction evaluates its second part only when
   * the first holds, as Java's && does.
   */
  function Eval(c: Cond, volumes: State): Result<bool, EvalError> {
    match c
    case Cmp(op, left, right, n) =>
      (match SideValue(left, volumes, n)
       case Err(e) => Err(e)
       case Ok(x) =>
         match SideValue(right, volumes, n)
         case Err(e) => Err(e)
         case Ok(y) => Ok(Holds(op, x, y)))
    case And(first, second) =>
      (match Eval(first, volumes)
       case Err(e) => Err(e)
       case Ok(b) => if b then Eval(second, volumes) else Ok(false))
  }

  // ---------------------------------------------------------------------------
  // What parsing does
  // ---------------------------------------------------------------------------

  /** Whitespace is removed before anything else, so whitespace inserted anywhere changes nothing. */
  lemma ParseIgnoresWhitespace(a: string, w: string, b: string, n: int)
    requires forall i :: 0 <= i < |w| ==> IsWhitespace(w[i])
    ensures Parse(a + w + b, n) == Parse(a + b, n)
  {
    StripWhitespaceAppend(a + w, b);
    StripWhitespaceAppend(a, w);
    StripWhitespaceAllBlank(w);
    StripWhitespaceAppend(a, b);
    assert StripWhitespace(a) + "" == StripWhitespace(a);
  }

  /** parseSingle throws "Unsupported operation" exactly when none of the three operators occurs. */
  lemma UnsupportedWithoutOperator(e: string, n: int)
    ensures ParseSingle(e, n) == Err(UnsupportedOperation) <==> forall op :: !Contains(e, OpText(op))
  {
    FirstOperatorSpec(e, 0);
    if FirstOperator(e).None? {
      forall op ensures !Contains(e, OpText(op)) {
        assert Operators[Rank(op)] == op;
      }
    } else {
      assert Contains(e, OpText(FirstOperator(e).value));
    }
  }

  /** A side text parse carries over untouched: no whitespace, no '&' and no character of an operator. */
  predicate PlainSide(s: string) {
    forall i :: 0 <= i < |s| ==> !IsWhitespace(s[i]) && s[i] != '&' && s[i] != '=' && s[i] != '<' && s[i] != '>'
  }

  /** A condition that has a text parse reads back: plain sides, a non-empty right side, conjunctions of comparisons only. */
  predicate Renderable(c: Cond, n: int) {
    match c
    case Cmp(_, left, right, m) => PlainSide(left) && PlainSide(right) && right != "" && m == n
    case And(first, second) => first.Cmp? && second.Cmp? && Renderable(first, n) && Renderable(second, n)
  }

  /** The text of a condition in the syntax parse reads. */
  function Render(c: Cond): string {
    match c
    case Cmp(op, left, right, _) => left + OpText(op) + right
    case And(first, second) => Render(first) + "&&" + Render(second)
  }

  /** The one '=' of a text with a single '<=' or '>=' is not followed by another. */
  lemma NoDoubleEquals(l: string, c: char, r: string)
    requires PlainSide(l) && PlainSide(r) && c != '='
    ensures !Contains(l + [c, '='] + r, "==")
  {
    var s := l + [c, '='] + r;
    IndexOfSpec(s, "==");
    forall j | 0 <= j && j + 2 <= |s| ensures !OccursAt(s, "==", j) {
      if j < |l| {
        assert s[j..j + 2][0] == s[j] == l[j];
      } else if j == |l| {
        assert s[j..j + 2][0] == c;
      } else {
        assert s[j..j + 2][1] == s[j + 1] == r[j + 1 - |l| - 2];
      }
    }
  }

  lemma RenderedChars(c: Cond, n: int)
    requires Renderable(c, n)
    ensures '&' !in Render(c) <== c.Cmp?
    ensures forall i :: 0 <= i < |Render(c)| ==> !IsWhitespace(Render(c)[i])
    ensures Render(c) != "" && Render(c)[|Render(c)| - 1] != '&'
  {
    match c
    case Cmp(op, l, r, _) =>
      var s := Render(c);
      assert s == l + OpText(op) + r;
      forall i | 0 <= i < |s| ensures !IsWhitespace(s[i]) && (s[i] == '&' ==> false) {
        if i < |l| { assert s[i] == l[i]; }
        else if i >= |l| + 2 { assert s[i] == r[i - |l| - 2]; }
      }
      assert s[|s| - 1] == r[|r| - 1];
    case And(a, b) =>
      RenderedChars(a, n);
      RenderedChars(b, n);
      var s := Render(c);
      assert s == Render(a) + "&&" + Render(b);
      forall i | 0 <= i < |s| ensures !IsWhitespace(s[i]) {
        if i < |Render(a)| { assert s[i] == Render(a)[i]; }
        else if i >= |Render(a)| + 2 { assert s[i] == Render(b)[i - |Render(a)| - 2]; }
      }
      assert s[|s| - 1] == Render(b)[|Render(b)| - 1];
  }

  /** The operator written between two plain sides is the one parseSingle selects. */
  lemma OperatorOfRender(op: Op, l: string, r: string)
    requires PlainSide(l) && PlainSide(r)
    ensures FirstOperator(l + OpText(op) + r) == Some(op)
  {
    var s := l + OpText(op) + r;
    assert OpText(op)[0] !in l by {
      forall i | 0 <= i < |l| ensures l[i] != OpText(op)[0] { }
    }
    PiecesAfterLead(l, OpText(op), r);
    match op
    case Eq =>
    case Ge =>
      NoDoubleEquals(l, '>', r);
    case Le =>
      NoDoubleEquals(l, '<', r);
      assert '>' !in s by {
        forall i | 0 <= i < |s| ensures s[i] != '>' {
          if i < |l| { assert s[i] == l[i]; }
          else if i >= |l| + 2 { assert s[i] == r[i - |l| - 2]; }
        }
      }
      AbsentLead(s, ">=");
  }

  /** parseSingle reads back a comparison: the operator is the one written, and the sides are cut exactly around it. */
  lemma ParseSingleRender(op: Op, l: string, r: string, n: int)
    requires Renderable(Cmp(op, l, r, n), n)
    ensures ParseSingle(l + OpText(op) + r, n) == Ok(Cmp(op, l, r, n))
  {
    var pat := OpText(op);
    assert pat[0] !in l by {
      forall i | 0 <= i < |l| ensures l[i] != pat[0] { }
    }
    assert pat[0] !in r by {
      forall i | 0 <= i < |r| ensures r[i] != pat[0] { }
    }
    OperatorOfRender(op, l, r);
    SplitTwo(l, pat, r);
  }

  /** parse of a whitespace-free text whose "&&" split has at least two pieces: the first two, parsed in order. */
  lemma ParseConjunction(e: string, n: int)
    requires forall i :: 0 <= i < |e| ==> !IsWhitespace(e[i])
    requires Contains(e, "&&") && |Split(e, "&&")| >= 2
    ensures Parse(e, n) == BothParsed(ParseSingle(Split(e, "&&")[0], n), ParseSingle(Split(e, "&&")[1], n))
  {
    StripWhitespaceNoop(e);
  }

  /** The result of parse for two parsed parts, the first one's error taking precedence. */
  function BothParsed(first: Result<Cond, ParseError>, second: Result<Cond, ParseError>): Result<Cond, ParseError> {
    if first.Err? then Err(first.error)
    else if second.Err? then Err(second.error)
    else Ok(And(first.value, second.value))
  }

  /** Parsing the text of a condition gives the condition back. */
  lemma ParseRender(c: Cond, n: int)
    requires Renderable(c, n)
    ensures Parse(Render(c), n) == Ok(c)
  {
    var s := Render(c);
    RenderedChars(c, n);
    match c
    case Cmp(op, l, r, _) =>
      StripWhitespaceNoop(s);
      AbsentLead(s, "&&");
      ParseSingleRender(op, l, r, n);
    case And(a, b) =>
      RenderedChars(a, n);
      RenderedChars(b, n);
      PiecesAfterLead(Render(a), "&&", Render(b));
      SplitTwo(Render(a), "&&", Render(b));
      ParseConjunction(s, n);
      ParseSingleRender(a.op, a.left, a.right, n);
      ParseSingleRender(b.op, b.left, b.right, n);
  }

  /** With "&&" only the first two parts count: a third part and anything after it are ignored. */
  lemma ParseIgnoresExtraParts(x: string, y: string, z: string, n: int)
    requires '&' !in x && '&' !in y && y != ""
    requires forall i :: 0 <= i < |x + y + z| ==> !IsWhitespace((x + y + z)[i])
    ensures Parse(x + "&&" + (y + "&&" + z), n) == Parse(x + "&&" + y, n)
  {
    var long := x + "&&" + (y + "&&" + z);
    var short := x + "&&" + y;
    forall i | 0 <= i < |long| ensures !IsWhitespace(long[i]) {
      if i < |x| { assert long[i] == (x + y + z)[i]; }
      else if |x| + 2 <= i < |x| + 2 + |y| { assert long[i] == (x + y + z)[i - 2]; }
      else if i >= |x| + |y| + 4 { assert long[i] == (x + y + z)[i - 4]; }
    }
    forall i | 0 <= i < |short| ensures !IsWhitespace(short[i]) {
      if i < |x| { assert short[i] == (x + y + z)[i]; }
      else if i >= |x| + 2 { assert short[i] == (x + y + z)[i - 2]; }
    }
    PiecesAfterLead(x, "&&", y + "&&" + z);
    PiecesAfterLead(x, "&&", y);
    SplitFirstTwo(x, "&&", y, z);
    assert Split(long, "&&")[0] == x && Split(long, "&&")[1] == y;
    SplitTwo(x, "&&", y);
    ParseConjunction(long, n);
    ParseConjunction(short, n);
  }

  /** Java drops trailing empty pieces: a missing right side is a format error. */
  lemma MissingRightSide(n: int)
    ensures ParseSingle("v[0]==", n) == Err(InvalidFormat)
  {
    var x := "v[0]";
    assert x + "==" == "v[0]==";
    PiecesAfterLead(x, "==", "");
    SplitTrailing(x, "==");
  }

  /** A missing left side is kept as an empty side, which evaluates to 0. */
  lemma MissingLeftSide(volumes: State, n: int)
    ensures ParseSingle("==3", n) == Ok(Cmp(Eq, "", "3", n))
    ensures Eval(Cmp(Eq, "", "3", n), volumes) == Ok(false)
  {
    assert "" + "==" + "3" == "==3";
    PiecesAfterLead("", "==", "3");
    SplitTwo("", "==", "3");
    EmptySide(volumes, n);
    LiteralSide(3, volumes, n);
    assert IntToString(3) == "3";
  }

  // ---------------------------------------------------------------------------
  // What evaluating a side does
  // ---------------------------------------------------------------------------

  /** An empty side has one empty token, which is skipped: its value is 0. */
  lemma EmptySide(volumes: State, n: int)
    ensures SideValue("", volumes, n) == Ok(0)
  {
    var tokens := SignTokens("");
    assert tokens == [""];
    assert Trim("") == "";
    assert TokenValue("", volumes, n) == Ok(0);
    assert SumTokens(tokens, 1, 0, volumes, n) == Ok(0);
  }

  /** An int literal other than Integer.MIN_VALUE evaluates to its value. */
  lemma LiteralSide(x: int, volumes: State, n: int)
    requires IntMin < x <= IntMax
    ensures SideValue(IntToString(x), volumes, n) == Ok(x)
  {
    var s := IntToString(x);
    IntToStringChars(x);
    assert forall j :: 1 <= j < |s| ==> !IsSign(s[j]) by {
      forall j | 1 <= j < |s| ensures !IsSign(s[j]) {
        if x < 0 { assert s[j] == s[1..][j - 1]; }
      }
    }
    NextSignIsFirst(s, 1, |s|);
    assert SignTokens(s) == [s];
    assert s != "sum" by { assert s[0] != 's'; }
    LiteralToken(x, volumes, n);
    assert SumTokens([s], 1, x, volumes, n) == Ok(x);
  }

  /** One token spelling an int literal other than Integer.MIN_VALUE. */
  lemma LiteralToken(x: int, volumes: State, n: int)
    requires IntMin < x <= IntMax
    ensures TokenValue(IntToString(x), volumes, n) == Ok(x)
  {
    var s := IntToString(x);
    assert Trim(s) == s;
    if x < 0 {
      var body := s[1..];
      assert body == IntToString(-x);
      IntToStringRoundTrip(-x);
      NumberTerm(body, -1, volumes, n);
    } else {
      IntToStringRoundTrip(x);
      NumberTerm(s, 1, volumes, n);
    }
  }

  /** A body that starts with a digit is read as a number, never as an index. */
  lemma NumberTerm(body: string, sign: int, volumes: State, n: int)
    requires body != "" && IsDigit(body[0])
    ensures TermValue(body, sign, volumes, n) == match ParseInt(body)
      case None => Err(NumberFormat)
      case Some(x) => Ok(sign * x)
  {
    assert !StartsWith(body, "v[") by {
      if |body| >= 2 {
        assert body[..2][0] == body[0];
      }
    }
  }

  // ---------------------------------------------------------------------------
  // What evaluating a condition does
  // ---------------------------------------------------------------------------

  /** A conjunction holds exactly when both comparisons hold; a false first comparison decides without the second. */
  lemma EvalAnd(a: Cond, b: Cond, volumes: State)
    ensures Eval(And(a, b), volumes) == Ok(true) <==> Eval(a, volumes) == Ok(true) && Eval(b, volumes) == Ok(true)
    ensures Eval(a, volumes) == Ok(false) ==> Eval(And(a, b), volumes) == Ok(false)
    ensures Eval(a, volumes).Err? ==> Eval(And(a, b), volumes) == Err(Eval(a, volumes).error)
  {
  }

  /** A side without a sign after its first character is one token, and its value is that token's. */
  lemma OneTokenSide(s: string, volumes: State, n: int)
    requires s != "" && s != "sum"
    requires forall j :: 1 <= j < |s| ==> !IsSign(s[j])
    ensures SideValue(s, volumes, n) == TokenValue(s, volumes, n)
  {
    NextSignIsFirst(s, 1, |s|);
    assert SignTokens(s) == [s];
    SumTokensStep([s], 0, 0, volumes, n);
  }

  /** Each token's value, in order. */
  function TokenValues(tokens: seq<string>, volumes: State, n: int): seq<Result<int, EvalError>> {
    seq(|tokens|, i requires 0 <= i < |tokens| => TokenValue(tokens[i], volumes, n))
  }

  /** Evaluating two token lists one after the other. */
  lemma TokenValuesAppend(t1: seq<string>, t2: seq<string>, volumes: State, n: int)
    ensures TokenValues(t1 + t2, volumes, n) == TokenValues(t1, volumes, n) + TokenValues(t2, volumes, n)
  {
    var r, r1, r2 := TokenValues(t1 + t2, volumes, n), TokenValues(t1, volumes, n), TokenValues(t2, volumes, n);
    assert |r| == |r1 + r2|;
    forall i | 0 <= i < |r| ensures r[i] == (r1 + r2)[i] {
      if i < |t1| {
        assert (t1 + t2)[i] == t1[i];
      } else {
        assert (t1 + t2)[i] == t2[i - |t1|];
      }
    }
  }

  /** The token loop over values already computed: the first error ends it. */
  function SumResults(rs: seq<Result<int, EvalError>>, k: nat, acc: int): Result<int, EvalError>
    requires k <= |rs|
    decreases |rs| - k
  {
    if k == |rs| then Ok(acc)
    else if rs[k].Err? then Err(rs[k].error)
    else SumResults(rs, k + 1, acc + rs[k].value)
  }

  /** Two partial sums joined: the first error wins, otherwise the values add. */
  function Joined(x: Result<int, EvalError>, y: Result<int, EvalError>): Result<int, EvalError> {
    if x.Err? then x else if y.Err? then y else Ok(x.value + y.value)
  }

  /** A result with d added to its value; an error is left as it is. */
  function Shifted(r: Result<int, EvalError>, d: int): Result<int, EvalError> {
    if r.Ok? then Ok(r.value + d) else r
  }

  /** Summing the tokens is summing their values. */
  lemma {:induction false} SumTokensIsSumResults(tokens: seq<string>, k: nat, acc: int, volumes: State, n: int)
    requires k <= |tokens|
    ensures SumTokens(tokens, k, acc, volumes, n) == SumResults(TokenValues(tokens, volumes, n), k, acc)
    decreases |tokens| - k
  {
    if k < |tokens| {
      var x := TokenValue(tokens[k], volumes, n);
      if x.Ok? {
        SumTokensIsSumResults(tokens, k + 1, acc + x.value, volumes, n);
      }
    }
  }

  /** Starting the loop d higher adds d to its result and leaves its errors as they are. */
  lemma {:induction false} SumResultsShift(rs: seq<Result<int, EvalError>>, k: nat, acc: int, d: int)
    requires k <= |rs|
    ensures SumResults(rs, k, acc + d) == Shifted(SumResults(rs, k, acc), d)
    decreases |rs| - k
  {
    if k < |rs| && rs[k].Ok? {
      SumResultsShift(rs, k + 1, acc + rs[k].value, d);
      assert acc + d + rs[k].value == acc + rs[k].value + d;
    }
  }

  /** The loop started from d instead of 0. */
  lemma SumResultsFrom(rs: seq<Result<int, EvalError>>, d: int)
    ensures SumResults(rs, 0, d) == Shifted(SumResults(rs, 0, 0), d)
  {
    SumResultsShift(rs, 0, 0, d);
  }

  /** The loop over r1 + r2: an error in r1 ends it, otherwise it goes on over r2 from r1's sum. */
  lemma {:induction false} SumResultsAppend(r1: seq<Result<int, EvalError>>, r2: seq<Result<int, EvalError>>, k: nat, acc: int)
    requires k <= |r1|
    ensures SumResults(r1, k, acc).Err? ==> SumResults(r1 + r2, k, acc) == SumResults(r1, k, acc)
    ensures SumResults(r1, k, acc).Ok? ==> SumResults(r1 + r2, k, acc) == SumResults(r2, 0, SumResults(r1, k, acc).value)
    decreases |r1| - k
  {
    if k == |r1| {
      SumResultsDrop(r1, r2, 0, acc);
    } else {
      assert (r1 + r2)[k] == r1[k];
      if r1[k].Ok? {
        SumResultsAppend(r1, r2, k + 1, acc + r1[k].value);
      }
    }
  }

  /** The loop over r1 + r2, once past r1, is the loop over r2. */
  lemma {:induction false} SumResultsDrop(r1: seq<Result<int, EvalError>>, r2: seq<Result<int, EvalError>>, j: nat, acc: int)
    requires j <= |r2|
    ensures SumResults(r1 + r2, |r1| + j, acc) == SumResults(r2, j, acc)
    decreases |r2| - j
  {
    if j < |r2| {
      assert (r1 + r2)[|r1| + j] == r2[j];
      if r2[j].Ok? {
        SumResultsDrop(r1, r2, j + 1, acc + r2[j].value);
      }
    }
  }

  /** A side other than "sum" is the sum of the values of its sign chunks. */
  lemma SideValueIsSumResults(side: string, volumes: State, n: int)
    requires |side| > 0 && side != "sum"
    ensures SideValue(side, volumes, n) == SumResults(TokenValues(SignChunks(side), volumes, n), 0, 0)
  {
    SumTokensIsSumResults(SignChunks(side), 0, 0, volumes, n);
  }

  /** Summing two lists of values one after the other joins their sums. */
  lemma SumResultsConcat(r1: seq<Result<int, EvalError>>, r2: seq<Result<int, EvalError>>)
    ensures SumResults(r1 + r2, 0, 0) == Joined(SumResults(r1, 0, 0), SumResults(r2, 0, 0))
  {
    SumResultsAppend(r1, r2, 0, 0);
    if SumResults(r1, 0, 0).Ok? {
      SumResultsFrom(r2, SumResults(r1, 0, 0).value);
    }
  }

  /** The value of a side a + b, where b starts with a sign, joins the values of a and b. */
  lemma SideValueJoin(a: string, b: string, volumes: State, n: int)
    requires |a| > 0 && a != "sum" && |b| > 0 && IsSign(b[0])
    ensures SideValue(a + b, volumes, n) == Joined(SideValue(a, volumes, n), SideValue(b, volumes, n))
  {
    assert (a + b)[|a|] == b[0];
    assert a + b != "sum" && b != "sum";
    SignChunksAppend(a, b);
    TokenValuesAppend(SignChunks(a), SignChunks(b), volumes, n);
    SideValueIsSumResults(a, volumes, n);
    SideValueIsSumResults(b, volumes, n);
    SideValueIsSumResults(a + b, volumes, n);
    SumResultsConcat(TokenValues(SignChunks(a), volumes, n), TokenValues(SignChunks(b), volumes, n));
  }

  /**
   * A side is the sum of its signed parts: for a side a + b where b starts
   * with a sign, the value is a's value plus b's; an error in a is reported
   * before any error in b.
   */
  lemma SideValueAppend(a: string, b: string, volumes: State, n: int)
    requires |a| > 0 && a != "sum" && |b| > 0 && IsSign(b[0])
    ensures SideValue(a, volumes, n).Err? ==> SideValue(a + b, volumes, n) == SideValue(a, volumes, n)
    ensures SideValue(a, volumes, n).Ok? && SideValue(b, volumes, n).Err? ==>
      SideValue(a + b, volumes, n) == SideValue(b, volumes, n)
    ensures SideValue(a, volumes, n).Ok? && SideValue(b, volumes, n).Ok? ==>
      SideValue(a + b, volumes, n) == Ok(SideValue(a, volumes, n).value + SideValue(b, volumes, n).value)
  {
    SideValueJoin(a, b, volumes, n);
  }

  /** The side "v[k]". */
  function IndexSide(k: int): string {
    "v[" + IntToString(k) + "]"
  }

  /** "v[k]" for k >= 0: its characters are plain and unsigned, and the text between "v[" and "]" is k's. */
  lemma IndexSideChars(k: int)
    requires k >= 0
    ensures PlainSide(IndexSide(k))
    ensures forall j :: 1 <= j < |IndexSide(k)| ==> !IsSign(IndexSide(k)[j])
    ensures |IndexSide(k)| >= 3 && IndexSide(k)[..2] == "v[" && IndexSide(k)[2..|IndexSide(k)| - 1] == IntToString(k)
    ensures IndexSide(k)[0] == 'v' && IndexSide(k)[|IndexSide(k)| - 1] == ']'
  {
    var s := IndexSide(k);
    var digits := IntToString(k);
    assert forall j :: 2 <= j < |s| - 1 ==> s[j] == digits[j - 2];
  }

  /** Evaluating "v[k]" for an index k at or beyond the container count fails with that index. */
  lemma IndexSideRefused(k: int, volumes: State, n: int)
    requires 0 <= k <= IntMax && n <= k
    ensures SideValue(IndexSide(k), volumes, n) == Err(InvalidIndex(k))
  {
    var s := IndexSide(k);
    IndexSideChars(k);
    OneTokenSide(s, volumes, n);
    assert Trim(s) == s;
    IntToStringRoundTrip(k);
    assert TermValue(s, 1, volumes, n) == Err(InvalidIndex(k));
  }

  /** "v[k]" is not the keyword "sum". */
  lemma IndexSideNotSum(k: int)
    ensures |IndexSide(k)| > 0 && IndexSide(k) != "sum"
  {
    assert IndexSide(k)[0] == 'v';
  }

  /** Two sides that evaluate, the second led by a sign, evaluate together to the sum. */
  lemma SideSum(a: string, b: string, volumes: State, n: int, x: int, y: int)
    requires |a| > 0 && a != "sum" && |b| > 0 && IsSign(b[0])
    requires SideValue(a, volumes, n) == Ok(x) && SideValue(b, volumes, n) == Ok(y)
    ensures SideValue(a + b, volumes, n) == Ok(x + y)
  {
    SideValueAppend(a, b, volumes, n);
    var r := SideValue(a + b, volumes, n);
    assert r.Ok? && r.value == x + y;
  }

  /** "v[k]" with k below the container count reads volume k, or fails when the state has fewer volumes. */
  lemma IndexSideValue(k: int, volumes: State, n: int)
    requires 0 <= k <= IntMax && k < n
    ensures k < |volumes| ==> SideValue(IndexSide(k), volumes, n) == Ok(volumes[k])
    ensures k >= |volumes| ==> SideValue(IndexSide(k), volumes, n) == Err(ArrayIndex)
  {
    var s := IndexSide(k);
    IndexSideChars(k);
    OneTokenSide(s, volumes, n);
    assert Trim(s) == s;
    IntToStringRoundTrip(k);
    assert TermValue(s, 1, volumes, n) == if k < |volumes| then Ok(volumes[k]) else Err(ArrayIndex);
  }

  /** "+v[k]" and "-v[k]": the sign in front multiplies volume k. */
  lemma SignedIndexSideValue(c: char, k: int, volumes: State, n: int)
    requires IsSign(c) && 0 <= k <= IntMax && k < n
    ensures k < |volumes| ==> SideValue([c] + IndexSide(k), volumes, n) == Ok(if c == '-' then -volumes[k] else volumes[k])
    ensures k >= |volumes| ==> SideValue([c] + IndexSide(k), volumes, n) == Err(ArrayIndex)
  {
    var t := IndexSide(k);
    var s := [c] + t;
    IndexSideChars(k);
    assert s[1..] == t;
    assert forall j :: 1 <= j < |s| ==> s[j] == t[j - 1];
    OneTokenSide(s, volumes, n);
    assert Trim(s) == s;
    IntToStringRoundTrip(k);
    var sign := if c == '-' then -1 else 1;
    assert TokenValue(s, volumes, n) == TermValue(t, sign, volumes, n);
    assert TermValue(t, sign, volumes, n) == if k < |volumes| then Ok(sign * volumes[k]) else Err(ArrayIndex);
  }

  /** The two summands of the side "v[i]+v[j]" meet what SideSum asks of them. */
  lemma IndexSumParts(i: int, j: int, volumes: State, n: int)
    requires 0 <= i <= IntMax && i < n && i < |volumes|
    requires 0 <= j <= IntMax && j < n && j < |volumes|
    ensures |IndexSide(i)| > 0 && IndexSide(i) != "sum"
    ensures |"+" + IndexSide(j)| > 0 && IsSign(("+" + IndexSide(j))[0])
    ensures SideValue(IndexSide(i), volumes, n) == Ok(volumes[i])
    ensures SideValue("+" + IndexSide(j), volumes, n) == Ok(volumes[j])
  {
    IndexSideNotSum(i);
    IndexSideValue(i, volumes, n);
    SignedIndexSideValue('+', j, volumes, n);
    assert "+" + IndexSide(j) == ['+'] + IndexSide(j);
  }

  /** The side "v[i]+v[j]", both indices in range, is the sum of the two volumes. */
  lemma IndexSumSide(i: int, j: int, volumes: State, n: int)
    requires 0 <= i <= IntMax && i < n && i < |volumes|
    requires 0 <= j <= IntMax && j < n && j < |volumes|
    ensures SideValue(IndexSide(i) + ("+" + IndexSide(j)), volumes, n).Ok?
    ensures SideValue(IndexSide(i) + ("+" + IndexSide(j)), volumes, n).value == volumes[i] + volumes[j]
  {
    IndexSumParts(i, j, volumes, n);
    SideSum(IndexSide(i), "+" + IndexSide(j), volumes, n, volumes[i], volumes[j]);
  }

  /**
   * An index k at or beyond the container count is accepted by parse and
   * refused only when the condition is evaluated.
   */
  lemma IndexCheckedAtEval(k: int, right: string, volumes: State, n: int)
    requires 0 <= k <= IntMax && n <= k
    requires PlainSide(right) && right != ""
    ensures Parse(Render(Cmp(Eq, IndexSide(k), right, n)), n) == Ok(Cmp(Eq, IndexSide(k), right, n))
    ensures Eval(Cmp(Eq, IndexSide(k), right, n), volumes) == Err(InvalidIndex(k))
  {
    IndexSideChars(k);
    ParseRender(Cmp(Eq, IndexSide(k), right, n), n);
    IndexSideRefused(k, volumes, n);
  }

  /** The digits of Integer.MIN_VALUE without its sign are out of range for Integer.parseInt. */
  lemma MinIntDigitsRefused()
    ensures ParseInt(NatDigits(-IntMin)) == None
  {
    DigitsRoundTrip(-IntMin);
  }

  /**
   * The sign is cut off before Integer.parseInt reads the digits, so
   * Integer.MIN_VALUE cannot be written as a literal side, although
   * Integer.parseInt accepts its text.
   */
  lemma MinIntLiteral(volumes: State, n: int)
    ensures ParseInt(IntToString(IntMin)) == Some(IntMin)
    ensures SideValue(IntToString(IntMin), volumes, n) == Err(NumberFormat)
  {
    var s := IntToString(IntMin);
    var body := NatDigits(-IntMin);
    assert s == "-" + body && s[1..] == body;
    IntToStringRoundTrip(IntMin);
    MinIntDigitsRefused();
    forall j | 1 <= j < |s| ensures !IsSign(s[j]) {
      assert s[j] == body[j - 1];
    }
    OneTokenSide(s, volumes, n);
    assert Trim(s) == s;
    NumberTerm(body, -1, volumes, n);
  }
}
