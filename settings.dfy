/** The settings screen's `DayOfWeek` enum: seven constants, each with a fixed `number`. */
module Settings {
  import opened Wrappers

  datatype DayOfWeek = Monday | Tuesday | Wednesday | Thursday | Friday | Saturday | Sunday

  /** The constants in declaration order, as Kotlin's `values()` lists them. */
  const Values: seq<DayOfWeek> := [Monday, Tuesday, Wednesday, Thursday, Friday, Saturday, Sunday]

  /** The `number` property of each constant. */
  function Number(d: DayOfWeek): (n: int)
    ensures 1 <= n <= 7
  {
    match d
    case Monday => 1
    case Tuesday => 2
    case Wednesday => 3
    case Thursday => 4
    case Friday => 5
    case Saturday => 6
    case Sunday => 7
  }

  /** The inverse of `Number`: the constant whose `number` is `n`, if there is one. */
  function WithNumber(n: int): (r: Option<DayOfWeek>)
    ensures r.Some? <==> 1 <= n <= 7
    ensures r.Some? ==> Number(r.value) == n
  {
    if 1 <= n <= 7 then Some(Values[n - 1]) else None
  }

  /** No two constants share a number. */
  lemma NumberInjective(a: DayOfWeek, b: DayOfWeek)
    ensures Number(a) == Number(b) ==> a == b
  {
  }

  /** Going to the number and back gives the constant itself. */
  lemma WithNumberOfNumber(d: DayOfWeek)
    ensures WithNumber(Number(d)) == Some(d)
  {
    NumberInjective(d, WithNumber(Number(d)).value);
  }

  /** Every value 1..7 is the number of exactly one constant. */
  lemma NumberOnto(n: int)
    requires 1 <= n <= 7
    ensures exists d :: Number(d) == n
    ensures forall d, e :: Number(d) == n && Number(e) == n ==> d == e
  {
    assert Number(WithNumber(n).value) == n;
    forall d, e | Number(d) == n && Number(e) == n ensures d == e {
      NumberInjective(d, e);
    }
  }

  /** `values()` lists all seven constants, numbered 1..7 in declaration order (MONDAY = 1 .. SUNDAY = 7). */
  lemma NumbersFollowDeclarationOrder()
    ensures |Values| == 7
    ensures forall d :: d in Values
    ensures forall i :: 0 <= i < |Values| ==> Number(Values[i]) == i + 1
  {
    forall d ensures d in Values {
      assert Values[Number(d) - 1] == d;
    }
  }
}
