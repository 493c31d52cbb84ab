/** A graph vertex: an identity (its label) plus the scratch fields a
    shortest-path search writes (cost so far, finalised flag, predecessor). */
module Vertices {
  import opened Common

  /** 2^32: Java int arithmetic is exact modulo this. */
  const MODULUS: int := 0x1_0000_0000

  /** Reduces x to the Java int it wraps around to. */
  function Wrap32(x: int): (r: Int32)
    ensures (r as int - x) % MODULUS == 0
  {
    var m := x % MODULUS;
    if m < 0x8000_0000 then m as Int32 else (m - MODULUS) as Int32
  }

  /** 31 to the power n. */
  function Pow31(n: nat): int
  {
    if n == 0 then 1 else 31 * Pow31(n - 1)
  }

  /** The value String.hashCode documents, over unbounded integers:
      s[0] * 31^(n-1) + s[1] * 31^(n-2) + ... + s[n-1]. */
  function PolyHash(s: string): int
  {
    if s == [] then 0 else s[0] as int * Pow31(|s| - 1) + PolyHash(s[1..])
  }

  /** String.hashCode: h = 31 * h + c over the characters, in int
      arithmetic; it is the documented polynomial, wrapped to an int. */
  function StringHash(s: string): (h: Int32)
    ensures (h as int - PolyHash(s)) % MODULUS == 0
  {
    if s == [] then 0
    else
      var init, c := s[..|s| - 1], s[|s| - 1];
      var x := 31 * StringHash(init) as int + c as int;
      PolyHashSnoc(init, c);
      assert init + [c] == s;
      CongruentStep(StringHash(init) as int, PolyHash(init), c as int);
      CongruentTrans(Wrap32(x) as int, x, PolyHash(s));
      Wrap32(x)
  }

  /** Horner's rule: one more character multiplies the polynomial by 31. */
  lemma {:induction false} PolyHashSnoc(s: string, c: char)
    ensures PolyHash(s + [c]) == 31 * PolyHash(s) + c as int
    decreases |s|
  {
    if s != [] {
      var t := s + [c];
      assert t[1..] == s[1..] + [c];
      PolyHashSnoc(s[1..], c);
      assert Pow31(|t| - 1) == 31 * Pow31(|s| - 1);
      assert s[0] as int * (31 * Pow31(|s| - 1)) == 31 * (s[0] as int * Pow31(|s| - 1));
    } else {
      assert s + [c] == [c];
    }
  }

  /** Congruence modulo 2^32 survives one Horner step h -> 31 * h + c. */
  lemma CongruentStep(a: int, b: int, c: int)
    requires (a - b) % MODULUS == 0
    ensures ((31 * a + c) - (31 * b + c)) % MODULUS == 0
  {
    var k := (a - b) / MODULUS;
    assert a - b == MODULUS * k;
    assert (31 * a + c) - (31 * b + c) == MODULUS * (31 * k);
  }

  /** Congruence modulo 2^32 is transitive. */
  lemma CongruentTrans(x: int, y: int, z: int)
    requires (x - y) % MODULUS == 0 && (y - z) % MODULUS == 0
    ensures (x - z) % MODULUS == 0
  {
    var j, k := (x - y) / MODULUS, (y - z) / MODULUS;
    assert x - z == MODULUS * (j + k);
  }

  class Vertex {
    const name: Label  // Java's `label` (a reserved word in Dafny)
    var cost: Int32
    var known: bool
    var path: Vertex?

    /** A new vertex is unreached: infinite cost, not known, no predecessor. */
    constructor (name: Label)
      ensures this.name == name
      ensures cost as int == INT_MAX && !known && path == null
    {
      this.name := name;
      cost := INT_MAX as Int32;
      known := false;
      path := null;
    }

    /** The constructor called with a possibly null label. */
    static method Create(name: Option<Label>) returns (r: Result<Vertex>)
      ensures name.None? <==> r == Err(IllegalArgument(NullLabel))
      ensures name.Some? <==> r.Ok?
      ensures r.Ok? ==> fresh(r.value) && r.value.name == name.value
      ensures r.Ok? ==> r.value.cost as int == INT_MAX && !r.value.known && r.value.path == null
    {
      if name.None? {
        return Err(IllegalArgument(NullLabel));
      }
      var v := new Vertex(name.value);
      return Ok(v);
    }

    function GetLabel(): Label { name }

    function ToString(): string { name }

    function GetCost(): Int32
      reads this
    {
      cost
    }

    function GetKnown(): bool
      reads this
    {
      known
    }

    function GetPath(): Vertex?
      reads this
    {
      path
    }

    /** hashCode: 31 * 1 + label.hashCode(), in int arithmetic. It reads no
        field but the label, so it cannot see the scratch fields. */
    function HashCode(): (h: Int32)
      ensures (h as int - (31 + PolyHash(name))) % MODULUS == 0
    {
      var x := 31 * 1 + StringHash(name) as int;
      assert (x - (31 + PolyHash(name))) % MODULUS == 0;
      CongruentTrans(Wrap32(x) as int, x, 31 + PolyHash(name));
      Wrap32(x)
    }

    /** equals: the same object, or a non-null vertex with an equal label.
        It reads no mutable field, so cost, known and path play no part. */
    predicate Equals(obj: Vertex?)
      ensures Equals(obj) <==> obj != null && name == obj.name
    {
      if this == obj then true
      else if obj == null then false
      else name == obj.name
    }

    /** compareTo: Integer.compare of the two costs; labels play no part. */
    function CompareTo(other: Vertex): (r: Int32)
      reads this, other
      ensures r == -1 || r == 0 || r == 1
      ensures r < 0 <==> cost < other.cost
      ensures r > 0 <==> cost > other.cost
    {
      if cost < other.cost then -1 else if cost == other.cost then 0 else 1
    }

    method SetCost(cost: Int32)
      modifies this`cost
      ensures GetCost() == cost
      ensures known == old(known) && path == old(path)
    {
      this.cost := cost;
    }

    method SetKnown(known: bool)
      modifies this`known
      ensures GetKnown() == known
      ensures cost == old(cost) && path == old(path)
    {
      this.known := known;
    }

    method SetPath(current: Vertex?)
      modifies this`path
      ensures GetPath() == current
      ensures cost == old(cost) && known == old(known)
    {
      this.path := current;
    }
  }

  /** equals is an equivalence relation. */
  lemma EqualsIsEquivalence(a: Vertex, b: Vertex, c: Vertex)
    ensures a.Equals(a)
    ensures a.Equals(b) ==> b.Equals(a)
    ensures a.Equals(b) && b.Equals(c) ==> a.Equals(c)
  {
  }

  /** Equal vertices have equal hash codes. */
  lemma EqualVerticesHashAlike(a: Vertex, b: Vertex)
    requires a.Equals(b)
    ensures a.HashCode() == b.HashCode()
  {
  }

  /** compareTo is antisymmetric and transitive: a total preorder on costs. */
  lemma CompareToIsPreorder(a: Vertex, b: Vertex, c: Vertex)
    ensures a.CompareTo(b) == -b.CompareTo(a)
    ensures a.CompareTo(b) <= 0 && b.CompareTo(c) <= 0 ==> a.CompareTo(c) <= 0
  {
  }

  /** Equality and ordering are different relations: two equal vertices
      with different costs compare unequal, and two vertices of equal cost
      compare equal whatever their labels. */
  lemma EqualityIsNotOrdering(a: Vertex, b: Vertex)
    ensures a.name == b.name && a.cost != b.cost ==> a.Equals(b) && a.CompareTo(b) != 0
    ensures a.cost == b.cost ==> a.CompareTo(b) == 0
  {
  }
}
