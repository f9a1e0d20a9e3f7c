/** The `AttributeType` enumeration. Its declaration is not part of this model:
    the members the repository and its tests name are None, Strength, Agility
    and Dexterity, and of their numbers only Strength = 1 and Agility = 2 are
    known. `Unlisted(k)` stands for the k-th further member, and a `Layout`
    supplies every number that is not known, so each property below holds for
    every declaration consistent with what is known. */
module Attributes {
  import W = Wrappers
  import opened Conversion

  datatype AttributeType = None | Strength | Agility | Dexterity | Unlisted(k: nat)

  const STRENGTH_VALUE: int := 1
  const AGILITY_VALUE: int := 2

  /** The numbers behind the members whose numbers are not known. */
  datatype Layout = Layout(noneValue: int, dexterityValue: int, unlisted: seq<int>)

  /** The number of every member, indexed by `Position`. */
  function Values(l: Layout): (vs: seq<int>)
    ensures |vs| == 4 + |l.unlisted|
  {
    [l.noneValue, STRENGTH_VALUE, AGILITY_VALUE, l.dexterityValue] + l.unlisted
  }

  function Position(a: AttributeType): nat {
    match a
    case None => 0
    case Strength => 1
    case Agility => 2
    case Dexterity => 3
    case Unlisted(k) => 4 + k
  }

  /** The member at a position; the inverse of `Position`. */
  function MemberAt(i: nat): (a: AttributeType)
    ensures Position(a) == i
  {
    if i == 0 then None
    else if i == 1 then Strength
    else if i == 2 then Agility
    else if i == 3 then Dexterity
    else Unlisted(i - 4)
  }

  /** A C# enum over `int`: every member's number fits in 32 bits and no two
      members share a number. */
  predicate ValidLayout(l: Layout) {
    && (forall i :: 0 <= i < |Values(l)| ==> InInt32(Values(l)[i]))
    && (forall i, j :: 0 <= i < j < |Values(l)| ==> Values(l)[i] != Values(l)[j])
  }

  /** `a` is one of the declared members. */
  predicate IsMember(l: Layout, a: AttributeType) {
    Position(a) < |Values(l)|
  }

  /** `(int)a`: the number of a member. Distinct members have distinct numbers,
      so only Strength has number 1 and only Agility has number 2. */
  function ToInt(l: Layout, a: AttributeType): (n: int)
    requires ValidLayout(l) && IsMember(l, a)
    ensures InInt32(n)
    ensures n == STRENGTH_VALUE <==> a == Strength
    ensures n == AGILITY_VALUE <==> a == Agility
  {
    var n := Values(l)[Position(a)];
    assert Values(l)[1] == STRENGTH_VALUE && Values(l)[2] == AGILITY_VALUE;
    n
  }

  /** Distinct members have distinct numbers. */
  lemma ToIntInjective(l: Layout, a: AttributeType, b: AttributeType)
    requires ValidLayout(l) && IsMember(l, a) && IsMember(l, b)
    requires ToInt(l, a) == ToInt(l, b)
    ensures a == b
  {
    assert Values(l)[Position(a)] == Values(l)[Position(b)];
    assert MemberAt(Position(a)) == a && MemberAt(Position(b)) == b;
  }

  /** `Enum.IsDefined(typeof(AttributeType), n)`. */
  predicate IsDefined(l: Layout, n: int) {
    n in Values(l)
  }

  /** The first position of `x` in `s`. */
  function IndexOf(s: seq<int>, x: int): (r: W.Option<nat>)
    ensures r.None? <==> x !in s
    ensures r.Some? ==> r.value < |s| && s[r.value] == x
  {
    if |s| == 0 then W.None
    else if s[0] == x then W.Some(0)
    else match IndexOf(s[1..], x)
      case None => W.None
      case Some(i) => W.Some(i + 1)
  }

  /** `(AttributeType)n` for a defined number `n`: the member whose number is
      `n`; `None` (the absent marker) when no member has that number. */
  function FromInt(l: Layout, n: int): (r: W.Option<AttributeType>)
    requires ValidLayout(l)
    ensures r.Some? <==> IsDefined(l, n)
    ensures r.Some? ==> IsMember(l, r.value) && ToInt(l, r.value) == n
  {
    match IndexOf(Values(l), n)
    case None => W.None
    case Some(i) => W.Some(MemberAt(i))
  }

  /** Every member's number maps back to that member. */
  lemma FromToInt(l: Layout, a: AttributeType)
    requires ValidLayout(l) && IsMember(l, a)
    ensures FromInt(l, ToInt(l, a)) == W.Some(a)
  {
    var r := FromInt(l, ToInt(l, a));
    ToIntInjective(l, r.value, a);
  }
}
