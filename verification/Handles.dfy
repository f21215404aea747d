/** A table of elements whose handles name the generation they were minted in. */
module Handles {
  import opened Common

  const U64_LIMIT: nat := 0x1_0000_0000_0000_0000

  function Digit(d: nat): char
    requires d < 10
  {
    '0' + d as char
  }

  function DigitValue(c: char): nat
    requires '0' <= c <= '9'
  {
    (c - '0') as nat
  }

  predicate IsDigit(c: char) {
    '0' <= c <= '9'
  }

  /** Decimal notation as the standard formatter prints it. */
  function Decimal(n: nat): string {
    if n < 10 then [Digit(n)] else Decimal(n / 10) + [Digit(n % 10)]
  }

  function Digits(s: string): Option<nat> {
    if s == [] then Some(0)
    else
      match Digits(s[..|s| - 1])
      case None => None
      case Some(high) =>
        if IsDigit(s[|s| - 1]) then Some(high * 10 + DigitValue(s[|s| - 1])) else None
  }

  /** The standard parser of an unsigned 64-bit number: an optional plus sign, then digits. */
  function Parse(s: string): Option<nat> {
    var digits := if s != [] && s[0] == '+' then s[1..] else s;
    match Digits(digits)
    case Some(n) => if digits != [] && n < U64_LIMIT then Some(n) else None
    case None => None
  }

  /** The part before the first colon and the part after it. */
  function SplitAtColon(s: string): Option<(string, string)> {
    if s == [] then None
    else if s[0] == ':' then Some(([], s[1..]))
    else
      match SplitAtColon(s[1..])
      case None => None
      case Some((left, right)) => Some(([s[0]] + left, right))
  }

  function Handle(generation: nat, index: nat): string {
    Decimal(generation) + ":" + Decimal(index)
  }

  function ResolveIn<T>(generation: nat, elements: seq<T>, handle: string): Option<T> {
    match SplitAtColon(handle)
    case None => None
    case Some((left, right)) =>
      match Parse(left)
      case None => None
      case Some(g) =>
        if g != generation then None
        else
          match Parse(right)
          case None => None
          case Some(index) => if index < |elements| then Some(elements[index]) else None
  }

  lemma {:induction false} DecimalIsDigits(n: nat)
    ensures Decimal(n) != [] && forall c :: c in Decimal(n) ==> IsDigit(c)
    ensures Digits(Decimal(n)) == Some(n)
  {
    if n < 10 {
      assert Decimal(n)[..0] == [];
    } else {
      DecimalIsDigits(n / 10);
      assert Decimal(n)[..|Decimal(n)| - 1] == Decimal(n / 10);
    }
  }

  lemma ParseUndoesDecimal(n: nat)
    ensures Parse(Decimal(n)) == if n < U64_LIMIT then Some(n) else None
  {
    DecimalIsDigits(n);
    assert Decimal(n)[0] in Decimal(n);
  }

  lemma {:induction false} SplitAtFirstColon(left: string, right: string)
    requires ':' !in left
    ensures SplitAtColon(left + ":" + right) == Some((left, right))
  {
    if left == [] {
      assert left + ":" + right == ":" + right;
      assert (":" + right)[1..] == right;
    } else {
      SplitAtFirstColon(left[1..], right);
      assert (left + ":" + right)[1..] == left[1..] + ":" + right;
      assert left == [left[0]] + left[1..];
    }
  }

  /**
   A handle resolves to the element stored under its index in its own generation, and to nothing
   in every other generation, even where its index is in range.
   */
  lemma HandleResolvesOnlyInItsGeneration<T>(
      minted: nat, index: nat, generation: nat, elements: seq<T>)
    requires generation < U64_LIMIT && |elements| <= U64_LIMIT
    ensures ResolveIn(generation, elements, Handle(minted, index)) ==
      if minted == generation && index < |elements| then Some(elements[index]) else None
  {
    DecimalIsDigits(minted);
    SplitAtFirstColon(Decimal(minted), Decimal(index));
    ParseUndoesDecimal(minted);
    ParseUndoesDecimal(index);
  }

  /** A handle that was given out, with the element stored under it. */
  datatype Minted<T> = Minted(generation: nat, index: nat, element: T) {
    function Name(): string {
      Handle(generation, index)
    }
  }

  class HandleTable<T> {
    var generation: nat
    var elements: seq<T>
    ghost var minted: seq<Minted<T>>  // every handle this table ever gave out

    /** What the machine's integers can hold; it is so whatever happened. */
    ghost predicate InRange()
      reads this
    {
      generation < U64_LIMIT && |elements| <= U64_LIMIT
    }

    /** No handle that was given out can be taken for another one. */
    ghost predicate Valid()
      reads this
    {
      && InRange()
      && forall m :: m in minted ==>
           && m.generation <= generation
           && (m.generation == generation ==> m.index < |elements| && elements[m.index] == m.element)
    }

    /** Every handle ever given out resolves to its own element or, once out of date, to nothing. */
    lemma EveryHandleResolvesToItsElement(m: Minted<T>)
      requires Valid() && m in minted
      ensures Resolve(m.Name()) == if m.generation == generation then Some(m.element) else None
    {
      HandleResolvesOnlyInItsGeneration(m.generation, m.index, generation, elements);
    }

    constructor ()
      ensures Valid() && generation == 0 && elements == [] && minted == []
    {
      generation, elements, minted := 0, [], [];
    }

    /** The generation is a 64-bit number that wraps around: from then on old handles may come back. */
    method BeginGeneration() returns (g: nat)
      requires InRange()
      modifies this
      ensures InRange() && elements == [] && minted == old(minted)
      ensures g == generation == if old(generation) == U64_LIMIT - 1 then 0 else old(generation) + 1
      ensures old(Valid()) ==> (Valid() <==> generation != 0 || minted == [])
    {
      generation := (generation + 1) % U64_LIMIT;
      elements := [];
      g := generation;
      assert minted != [] ==> minted[0] in minted;
    }

    method Store(element: T) returns (handle: string)
      requires InRange() && |elements| < U64_LIMIT
      modifies this
      ensures InRange() && (old(Valid()) ==> Valid())
      ensures generation == old(generation) && elements == old(elements) + [element]
      ensures handle == Handle(generation, |old(elements)|) && Resolve(handle) == Some(element)
      ensures minted == old(minted) + [Minted(generation, |old(elements)|, element)]
    {
      handle := Handle(generation, |elements|);
      minted := minted + [Minted(generation, |elements|, element)];
      elements := elements + [element];
      HandleResolvesOnlyInItsGeneration(generation, |elements| - 1, generation, elements);
    }

    function Resolve(handle: string): Option<T>
      reads this
    {
      ResolveIn(generation, elements, handle)
    }
  }
}
