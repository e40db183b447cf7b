/**
 * Container: a cell holding a volume between zero and its capacity. The
 * capacity is fixed; the volume changes through setCurrentVol, which refuses
 * any value outside the range and then leaves the volume as it was.
 */
module Containers {
  import opened Wrappers
  import opened JavaStrings

  /** The IllegalArgumentExceptions the class throws, one per message. */
  datatype ContainerError =
    | VolumeExceedsCapacity   // "Volume cannot exceed capacity"
    | NegativeValue           // "Capacity and Volume cannot be negative"
    | VolumeOutOfRange        // "Volume must be between 0 and capacity"

  /**
   * The guards of the constructor in the order it runs them: the volume is
   * compared with the capacity before either is checked for sign, so when
   * both checks fail the first message is the one thrown.
   */
  function ConstructorCheck(cap: int, vol: int): (r: Outcome<ContainerError>)
    ensures r == Pass <==> 0 <= vol <= cap
    ensures vol > cap ==> r == Fail(VolumeExceedsCapacity)
    ensures r == Fail(NegativeValue) <==> vol <= cap && (cap < 0 || vol < 0)
  {
    if vol > cap then Fail(VolumeExceedsCapacity)
    else if cap < 0 || vol < 0 then Fail(NegativeValue)
    else Pass
  }

  /** The text toString writes for a volume and a capacity: "(vol/cap)". */
  function Text(vol: int, cap: int): (r: string)
    ensures |r| >= 5 && r[0] == '(' && r[|r| - 1] == ')'
  {
    "(" + IntToString(vol) + "/" + IntToString(cap) + ")"
  }

  /** The slash separates the two numbers, so the text determines volume and capacity. */
  lemma TextInjective(vol: int, cap: int, vol': int, cap': int)
    requires Text(vol, cap) == Text(vol', cap')
    ensures vol == vol' && cap == cap'
  {
    var a, b := IntToString(vol), IntToString(cap);
    var a', b' := IntToString(vol'), IntToString(cap');
    IntToStringChars(vol);
    IntToStringChars(vol');
    assert Text(vol, cap) == "(" + (a + ['/'] + (b + ")"));
    assert Text(vol', cap') == "(" + (a' + ['/'] + (b' + ")"));
    assert a + ['/'] + (b + ")") == Text(vol, cap)[1..];
    assert a' + ['/'] + (b' + ")") == Text(vol', cap')[1..];
    CutAtDelimiter(a, b + ")", a', b' + ")", '/');
    assert b == (b + ")")[..|b|];
    assert b' == (b' + ")")[..|b'|];
    IntToStringInjective(vol, vol');
    IntToStringInjective(cap, cap');
  }

  class Container {
    const capacity: int
    var currentVol: int

    /** The class invariant: the volume lies between zero and the capacity. */
    ghost predicate Valid()
      reads this
    {
      0 <= currentVol <= capacity
    }

    /** The constructor once its guards have passed. */
    constructor (cap: int, vol: int)
      requires ConstructorCheck(cap, vol) == Pass
      ensures Valid()
      ensures capacity == cap && currentVol == vol
    {
      capacity := cap;
      currentVol := vol;
    }

    /** new Container(cap, vol): the first failing guard's exception, or a valid container. */
    static method New(cap: int, vol: int) returns (r: Result<Container, ContainerError>)
      ensures r.Err? <==> ConstructorCheck(cap, vol).Fail?
      ensures r.Err? ==> ConstructorCheck(cap, vol) == Fail(r.error)
      ensures r.Ok? ==> fresh(r.value) && r.value.Valid()
      ensures r.Ok? ==> r.value.capacity == cap && r.value.currentVol == vol
    {
      if vol > cap {
        return Err(VolumeExceedsCapacity);
      }
      if cap < 0 || vol < 0 {
        return Err(NegativeValue);
      }
      var c := new Container(cap, vol);
      return Ok(c);
    }

    function GetCurrentVol(): (r: int)
      reads this
      requires Valid()
      ensures 0 <= r <= capacity
    {
      currentVol
    }

    function GetCapacity(): (r: int)
      reads this
      requires Valid()
      ensures r >= 0 && r >= currentVol
    {
      capacity
    }

    /**
     * setCurrentVol: a volume within 0 .. capacity is stored; any other
     * throws and the container keeps its volume. The capacity never changes.
     */
    method SetCurrentVol(vol: int) returns (r: Outcome<ContainerError>)
      requires Valid()
      modifies this
      ensures Valid()
      ensures r == Pass <==> 0 <= vol <= capacity
      ensures r == Pass ==> currentVol == vol
      ensures r.Fail? ==> r.error == VolumeOutOfRange && currentVol == old(currentVol)
    {
      if vol > capacity || vol < 0 {
        return Fail(VolumeOutOfRange);
      }
      currentVol := vol;
      return Pass;
    }

    function ToString(): (r: string)
      reads this
      ensures |r| >= 5 && r[0] == '(' && r[|r| - 1] == ')'
    {
      Text(currentVol, capacity)
    }
  }
}
