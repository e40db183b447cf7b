/**
 * Transfer: one pour from a source container to a destination container,
 * and MoveResult: the state a pour produces together with the pour itself.
 * Both Java classes are immutable records with getters; here they are
 * datatypes, whose fields are their getters.
 */
module Transfers {
  import opened JavaStrings
  import opened States

  /**
   * The Java constructor validates nothing: a pour from a container to itself,
   * or of a zero or negative amount, is a valid Transfer value.
   */
  datatype Transfer = Transfer(fromContainer: int, toContainer: int, amount: int)

  /** The resulting state of a pour and the pour that produced it. */
  datatype MoveResult = MoveResult(newState: State, action: Transfer)

  /**
   * What a pour does to the volumes, in the order the generator and the
   * replay in the visualiser write it: the source loses the amount, then the
   * destination gains it.
   */
  function Apply(s: State, t: Transfer): (r: State)
    requires 0 <= t.fromContainer < |s| && 0 <= t.toContainer < |s|
    ensures |r| == |s|
  {
    var drained := s[t.fromContainer := s[t.fromContainer] - t.amount];
    drained[t.toContainer := drained[t.toContainer] + t.amount]
  }

  /** The source loses the amount, the destination gains it, and every other container is untouched. */
  lemma ApplyEffect(s: State, t: Transfer)
    requires 0 <= t.fromContainer < |s| && 0 <= t.toContainer < |s|
    ensures t.fromContainer != t.toContainer ==>
      Apply(s, t)[t.fromContainer] == s[t.fromContainer] - t.amount
      && Apply(s, t)[t.toContainer] == s[t.toContainer] + t.amount
    ensures forall k :: 0 <= k < |s| && k != t.fromContainer && k != t.toContainer ==> Apply(s, t)[k] == s[k]
  {
  }

  /** A pour moves liquid between containers: the total volume is unchanged. */
  lemma ApplyKeepsSum(s: State, t: Transfer)
    requires 0 <= t.fromContainer < |s| && 0 <= t.toContainer < |s|
    ensures Sum(Apply(s, t)) == Sum(s)
  {
    var drained := s[t.fromContainer := s[t.fromContainer] - t.amount];
    SumUpdate(s, t.fromContainer, s[t.fromContainer] - t.amount);
    SumUpdate(drained, t.toContainer, drained[t.toContainer] + t.amount);
  }

  /** Transfer.toString. */
  function ToString(t: Transfer): string {
    "Transfer " + IntToString(t.amount) + " units from container " + IntToString(t.fromContainer)
      + " to container " + IntToString(t.toContainer)
  }

  /** The fixed words delimit the three numbers, so the text determines the transfer. */
  lemma ToStringInjective(t: Transfer, u: Transfer)
    requires ToString(t) == ToString(u)
    ensures t == u
  {
    var a, a' := IntToString(t.amount), IntToString(u.amount);
    var f, f' := IntToString(t.fromContainer), IntToString(u.fromContainer);
    var d, d' := IntToString(t.toContainer), IntToString(u.toContainer);
    IntToStringChars(t.amount);
    IntToStringChars(u.amount);
    IntToStringChars(t.fromContainer);
    IntToStringChars(u.fromContainer);
    var rest := "to container " + d;
    var rest' := "to container " + d';
    var tail := "units from container " + (f + [' '] + rest);
    var tail' := "units from container " + (f' + [' '] + rest');
    TransferTextShape(a, f, d);
    TransferTextShape(a', f', d');
    CutAfterWord("Transfer ", a, tail, a', tail');
    CutAfterWord("units from container ", f, rest, f', rest');
    DropPrefix("to container ", d, d');
    IntToStringInjective(t.amount, u.amount);
    IntToStringInjective(t.fromContainer, u.fromContainer);
    IntToStringInjective(t.toContainer, u.toContainer);
  }

  lemma TransferTextShape(a: string, f: string, d: string)
    ensures "Transfer " + a + " units from container " + f + " to container " + d
         == "Transfer " + (a + [' '] + ("units from container " + (f + [' '] + ("to container " + d))))
  {
  }

  /** After a common word, a space-free text followed by a space is determined. */
  lemma CutAfterWord(w: string, x: string, rx: string, y: string, ry: string)
    requires ' ' !in x && ' ' !in y
    requires w + (x + [' '] + rx) == w + (y + [' '] + ry)
    ensures x == y && rx == ry
  {
    DropPrefix(w, x + [' '] + rx, y + [' '] + ry);
    CutAtDelimiter(x, rx, y, ry, ' ');
  }

  lemma DropPrefix(p: string, x: string, y: string)
    requires p + x == p + y
    ensures x == y
  {
    assert x == (p + x)[|p|..];
    assert y == (p + y)[|p|..];
  }
}
