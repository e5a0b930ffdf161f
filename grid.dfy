/**
 * Grid primitives (src/utils.js): cells of the infinite integer grid, their
 * canonical "x,z" string keys, and the four edge-neighbours of a cell.
 */
module Grid {

  datatype Option<T> = None | Some(value: T)

  /** A grid cell; two cells are equal iff both coordinates are equal. */
  datatype Cell = Cell(x: int, z: int)

  function Abs(n: int): nat { if n < 0 then -n else n }

  /** Manhattan (taxicab) distance between two cells. */
  function Manhattan(a: Cell, b: Cell): nat { Abs(a.x - b.x) + Abs(a.z - b.z) }

  // ---------------------------------------------------------------------------
  // Decimal rendering of integers, as a template literal renders an integral
  // number: optional '-' followed by the decimal digits without leading zeros.

  predicate IsDigit(ch: char) { '0' <= ch <= '9' }

  predicate AllDigits(s: string) { forall i :: 0 <= i < |s| ==> IsDigit(s[i]) }

  function DigitChar(d: int): (ch: char)
    requires 0 <= d < 10
    ensures IsDigit(ch) && ch as int - '0' as int == d
  {
    ('0' as int + d) as char
  }

  function NatToString(n: nat): (s: string)
    ensures |s| >= 1 && AllDigits(s)
  {
    if n < 10 then [DigitChar(n)] else NatToString(n / 10) + [DigitChar(n % 10)]
  }

  function IntToString(n: int): string {
    if n < 0 then "-" + NatToString(-n) else NatToString(n)
  }

  /** utils.key: the canonical "x,z" key of a cell, two comma-separated fields. */
  function Key(c: Cell): (k: string)
    ensures Split(k, ',') == [IntToString(c.x), IntToString(c.z)]
  {
    IntToStringHasNoComma(c.x);
    IntToStringHasNoComma(c.z);
    SplitAtSeparator(IntToString(c.x), ',', IntToString(c.z));
    SplitNoSeparator(IntToString(c.z), ',');
    IntToString(c.x) + "," + IntToString(c.z)
  }

  // ---------------------------------------------------------------------------
  // Parsing a key back: split at ',' and read the first two fields.

  function DigitValue(ch: char): int
    requires IsDigit(ch)
  {
    ch as int - '0' as int
  }

  function ParseDigits(s: string): nat
    requires AllDigits(s)
  {
    if s == [] then 0 else ParseDigits(s[..|s| - 1]) * 10 + DigitValue(s[|s| - 1])
  }

  /** A field that is an optional '-' followed by at least one decimal digit. */
  function ParseInt(s: string): Option<int> {
    if |s| >= 2 && s[0] == '-' && AllDigits(s[1..]) then Some(-(ParseDigits(s[1..]) as int))
    else if |s| >= 1 && AllDigits(s) then Some(ParseDigits(s))
    else None
  }

  /** String.prototype.split with a one-character separator. */
  function Split(s: string, sep: char): (parts: seq<string>)
    ensures |parts| >= 1
  {
    if s == [] then [""]
    else if s[0] == sep then [""] + Split(s[1..], sep)
    else
      var rest := Split(s[1..], sep);
      [[s[0]] + rest[0]] + rest[1..]
  }

  /** utils.parseKey: the first two comma-separated fields as coordinates; a text without a comma has no z. */
  function ParseKey(k: string): (r: Option<Cell>)
    ensures ',' !in k ==> r.None?
    ensures r.Some? ==> |Split(k, ',')| >= 2 && ParseInt(Split(k, ',')[0]) == Some(r.value.x)
  {
    SplitSingle(k, ',');
    var parts := Split(k, ',');
    if |parts| < 2 then None
    else
      match (ParseInt(parts[0]), ParseInt(parts[1]))
      case (Some(x), Some(z)) => Some(Cell(x, z))
      case _ => None
  }

  lemma {:induction false} ParseNatToString(n: nat)
    ensures ParseDigits(NatToString(n)) == n
  {
    var s := NatToString(n);
    if n >= 10 {
      assert s[..|s| - 1] == NatToString(n / 10);
      ParseNatToString(n / 10);
    }
  }

  lemma ParseIntToString(n: int)
    ensures ParseInt(IntToString(n)) == Some(n)
  {
    var t := NatToString(Abs(n));
    ParseNatToString(Abs(n));
    if n < 0 {
      var s := "-" + t;
      assert IntToString(n) == s && |s| >= 2 && s[0] == '-' && s[1..] == t;
    } else {
      assert IntToString(n) == t && IsDigit(t[0]);
    }
  }

  lemma {:induction false} SplitNoSeparator(a: string, sep: char)
    requires forall i :: 0 <= i < |a| ==> a[i] != sep
    ensures Split(a, sep) == [a]
  {
    if a != [] {
      SplitNoSeparator(a[1..], sep);
      assert [a[0]] + a[1..] == a;
    }
  }

  /** A text without the separator is a single field. */
  lemma SplitSingle(a: string, sep: char)
    ensures sep !in a ==> Split(a, sep) == [a]
  {
    if sep !in a {
      SplitNoSeparator(a, sep);
    }
  }

  lemma {:induction false} SplitAtSeparator(a: string, sep: char, b: string)
    requires forall i :: 0 <= i < |a| ==> a[i] != sep
    ensures Split(a + [sep] + b, sep) == [a] + Split(b, sep)
  {
    if a == [] {
      assert a + [sep] + b == [sep] + b;
      assert ([sep] + b)[1..] == b;
    } else {
      assert (a + [sep] + b)[1..] == a[1..] + [sep] + b;
      SplitAtSeparator(a[1..], sep, b);
      assert [a[0]] + a[1..] == a;
    }
  }

  lemma IntToStringHasNoComma(n: int)
    ensures forall i :: 0 <= i < |IntToString(n)| ==> IntToString(n)[i] != ','
  {
    if n < 0 {
      var t := NatToString(-n);
      assert forall i :: 1 <= i < |IntToString(n)| ==> IntToString(n)[i] == t[i - 1];
    }
  }

  /** parseKey(key(x, z)) gives back exactly (x, z), negative coordinates included. */
  lemma KeyRoundTrip(c: Cell)
    ensures ParseKey(Key(c)) == Some(c)
  {
    ParseIntToString(c.x);
    ParseIntToString(c.z);
  }

  /** Distinct cells have distinct keys. */
  lemma KeyInjective(a: Cell, b: Cell)
    ensures Key(a) == Key(b) ==> a == b
  {
    KeyRoundTrip(a);
    KeyRoundTrip(b);
  }

  // ---------------------------------------------------------------------------
  // 4-neighbourhood

  /** utils.neighbors4: the four cells one step away, in the order +x, -x, +z, -z (Neighbors4Shape states their distances). */
  function Neighbors4(c: Cell): (ns: seq<Cell>)
    ensures |ns| == 4
  {
    [Cell(c.x + 1, c.z), Cell(c.x - 1, c.z), Cell(c.x, c.z + 1), Cell(c.x, c.z - 1)]
  }

  /** b shares an edge with a. */
  predicate Adjacent(a: Cell, b: Cell) { b in Neighbors4(a) }

  /** Four pairwise-distinct cells, each at Manhattan distance 1, none equal to c. */
  lemma Neighbors4Shape(c: Cell)
    ensures |Neighbors4(c)| == 4
    ensures forall i, j :: 0 <= i < j < 4 ==> Neighbors4(c)[i] != Neighbors4(c)[j]
    ensures forall i :: 0 <= i < 4 ==> Manhattan(c, Neighbors4(c)[i]) == 1
    ensures c !in Neighbors4(c)
  {
  }

  /** The neighbour relation is exactly "Manhattan distance 1". */
  lemma AdjacentIffUnitDistance(a: Cell, b: Cell)
    ensures Adjacent(a, b) <==> Manhattan(a, b) == 1
  {
  }

  lemma AdjacentSymmetric(a: Cell, b: Cell)
    ensures Adjacent(a, b) <==> Adjacent(b, a)
  {
  }

  lemma AdjacentIrreflexive(a: Cell)
    ensures !Adjacent(a, a)
  {
  }
}
