/**
 * Helpers of the validation driver's log writer: the `NA` sentinel, integer
 * rendering, in-place lowercasing and the `splice` family that renders a
 * vector as one log field.
 */
module ValidationUtils {
  import opened Wrappers
  import opened Text
  import opened Elft

  /** Logged for a value that is absent. */
  const NA := "NA"

  /** `std::to_string(bool)`: a `bool` is an integral type, so it renders as `1` or `0`. */
  function BoolText(b: bool): string { if b then "1" else "0" }

  /** The characters `std::to_string` of an integer can produce. */
  predicate Numeral(s: string) { forall i :: 0 <= i < |s| ==> s[i] == '-' || IsDigit(s[i]) }

  lemma {:induction false} IntToStringNumeral(i: int)
    ensures Numeral(IntToString(i))
  {
    var s := IntToString(i);
    assert forall k :: 1 <= k < |s| ==> s[1..][k - 1] == s[k];
  }

  /** `NA` cannot be mistaken for a logged number (`ts`, `e2i2s`) or boolean. */
  lemma {:induction false} NaIsNotANumber(i: int, b: bool)
    ensures IntToString(i) != NA
    ensures BoolText(b) != NA
  {
    IntToStringNumeral(i);
    assert NA[0] == 'N';
  }

  // ---- lower ----

  /** `std::tolower` in the "C" locale: only the 26 capital letters change. */
  function LowerChar(c: char): char
  {
    if 'A' <= c <= 'Z' then (c as int + ('a' as int - 'A' as int)) as char else c
  }

  function Lowered(s: string): (r: string)
    ensures |r| == |s|
  {
    if s == [] then [] else [LowerChar(s[0])] + Lowered(s[1..])
  }

  /** `lower`: lowercases the string in place. */
  method Lower(s: array<char>)
    modifies s
    ensures s[..] == Lowered(old(s[..]))
  {
    var i := 0;
    while i < s.Length
      invariant 0 <= i <= s.Length
      invariant s[i..] == old(s[i..])
      invariant s[..i] == Lowered(old(s[..i]))
    {
      LoweredAppend(old(s[..i]), old(s[i]));
      assert old(s[..i + 1]) == old(s[..i]) + [old(s[i])];
      s[i] := LowerChar(s[i]);
      i := i + 1;
    }
    assert s[..] == s[..i];
    assert old(s[..]) == old(s[..i]);
  }

  lemma {:induction false} LoweredAppend(s: string, c: char)
    ensures Lowered(s + [c]) == Lowered(s) + [LowerChar(c)]
  {
    if s != [] {
      assert (s + [c])[1..] == s[1..] + [c];
      LoweredAppend(s[1..], c);
    }
  }

  /**
   * After `lower` no capital letter remains, every other character is kept,
   * and lowering again changes nothing.
   */
  lemma {:induction false} LoweredProperties(s: string)
    ensures forall i :: 0 <= i < |s| ==> !('A' <= Lowered(s)[i] <= 'Z')
    ensures forall i :: 0 <= i < |s| && !('A' <= s[i] <= 'Z') ==> Lowered(s)[i] == s[i]
    ensures Lowered(Lowered(s)) == Lowered(s)
  {
    if s != [] {
      LoweredProperties(s[1..]);
      assert forall i :: 1 <= i < |s| ==> Lowered(s)[i] == Lowered(s[1..])[i - 1];
      assert Lowered(s)[1..] == Lowered(s[1..]);
    }
  }

  // ---- splice ----

  /** What the loop of every `splice` accumulates: each rendering followed by the separator. */
  function Accumulated(items: seq<string>, sep: string): string
  {
    if items == [] then "" else Accumulated(items[..|items| - 1], sep) + items[|items| - 1] + sep
  }

  /**
   * `ret.erase(ret.find_last_of(sep), sep.length())`: `find_last_of` finds
   * `npos` in an empty string or for an empty separator, and erasing at
   * `npos` throws `std::out_of_range`. Otherwise the accumulated text ends
   * with the separator, so the last character of the separator is found at
   * the very end and only that one character is erased.
   */
  function SpliceResult(items: seq<string>, sep: string): Outcome<string>
  {
    var acc := Accumulated(items, sep);
    if items == [] || sep == [] then Raised("basic_string::erase") else Ok(acc[..|acc| - 1])
  }

  /** The renderings of the elements, in order. */
  function Rendered<T>(v: seq<T>, render: T -> string): seq<string>
  {
    seq(|v|, i requires 0 <= i < |v| => render(v[i]))
  }

  /**
   * Every `splice` overload: renders each element, appends the separator,
   * then erases at the last separator character.
   */
  method Splice<T>(v: seq<T>, render: T -> string, sep: string) returns (r: Outcome<string>)
    ensures r == SpliceResult(Rendered(v, render), sep)
  {
    ghost var items := Rendered(v, render);
    var ret := "";
    var i := 0;
    while i < |v|
      invariant 0 <= i <= |v|
      invariant ret == Accumulated(items[..i], sep)
    {
      assert items[..i + 1][..i] == items[..i];
      ret := ret + render(v[i]) + sep;
      i := i + 1;
    }
    assert items[..i] == items;
    assert (ret == [] || sep == []) <==> (items == [] || sep == []) by {
      if items != [] && sep != [] {
        AccumulatedIsJoin(items, sep);
      }
    }
    if ret == [] || sep == [] {
      r := Raised("basic_string::erase");
    } else {
      r := Ok(ret[..|ret| - 1]);
    }
  }

  lemma {:induction false} JoinSnoc(parts: seq<string>, x: string, sep: string)
    requires parts != []
    ensures Join(parts + [x], sep) == Join(parts, sep) + sep + x
  {
    if |parts| == 1 {
      assert (parts + [x])[1..] == [x];
    } else {
      assert (parts + [x])[1..] == parts[1..] + [x];
      JoinSnoc(parts[1..], x, sep);
    }
  }

  lemma {:induction false} AccumulatedIsJoin(items: seq<string>, sep: string)
    requires items != []
    ensures Accumulated(items, sep) == Join(items, sep) + sep
  {
    var n := |items|;
    if n > 1 {
      AccumulatedIsJoin(items[..n - 1], sep);
      JoinSnoc(items[..n - 1], items[n - 1], sep);
      assert items[..n - 1] + [items[n - 1]] == items;
    }
  }

  /** Accumulating one more item appends it and a separator. */
  lemma {:induction false} AccumulatedSnoc(items: seq<string>, x: string, sep: string)
    ensures Accumulated(items + [x], sep) == Accumulated(items, sep) + x + sep
  {
    assert (items + [x])[..|items|] == items;
  }

  /** Dropping the last character of a one-character separator's accumulation leaves the join. */
  lemma {:induction false} AccumulatedDropLast(items: seq<string>, sep: string)
    requires items != [] && |sep| == 1
    ensures |Accumulated(items, sep)| >= 1
    ensures Accumulated(items, sep)[..|Accumulated(items, sep)| - 1] == Join(items, sep)
  {
    AccumulatedIsJoin(items, sep);
    var j := Join(items, sep);
    assert (j + sep)[..|j + sep| - 1] == j;
  }

  /** Taking one more item: the accumulation grows by it and a separator, the join by a separator and it. */
  lemma {:induction false} AccumulatedThen(items: seq<string>, k: nat, sep: string)
    requires k < |items|
    ensures Accumulated(items[..k], sep) + items[k] + sep == Accumulated(items[..k + 1], sep)
    ensures Accumulated(items[..k], sep) + items[k] == Join(items[..k + 1], sep)
  {
    assert items[..k + 1][..k] == items[..k];
    if k > 0 {
      AccumulatedIsJoin(items[..k], sep);
      JoinSnoc(items[..k], items[k], sep);
      assert items[..k] + [items[k]] == items[..k + 1];
    } else {
      assert items[..k + 1] == [items[k]];
    }
  }

  /**
   * `splice` throws exactly on an empty vector or an empty separator.
   * Otherwise its text is the renderings joined by the separator, followed
   * by the separator minus its last character; for the one-character
   * separators the driver uses, that is exactly the join.
   */
  lemma {:induction false} SpliceIsJoin(items: seq<string>, sep: string)
    ensures SpliceResult(items, sep).Raised? <==> items == [] || sep == []
    ensures items != [] && sep != [] ==>
      SpliceResult(items, sep) == Ok(Join(items, sep) + sep[..|sep| - 1])
    ensures items != [] && |sep| == 1 ==> SpliceResult(items, sep) == Ok(Join(items, sep))
  {
    if items != [] && sep != [] {
      AccumulatedIsJoin(items, sep);
      var j := Join(items, sep);
      assert (j + sep)[..|j + sep| - 1] == j + sep[..|sep| - 1];
    }
  }

  /** `splice(std::vector<std::string>(n, NA), ",")`: n `NA`s separated by commas. */
  lemma {:induction false} SpliceOfNas(n: nat)
    requires n >= 1
    ensures SpliceResult(Repeat(NA, n), ",") == Ok(Join(Repeat(NA, n), ","))
  {
    SpliceIsJoin(Repeat(NA, n), ",");
  }

  // ---- Element renderings of the splice overloads ----

  function CoordinateField(c: Coordinate): string
  {
    IntToString(c.x) + ";" + IntToString(c.y)
  }

  function MinutiaField(m: Minutia): string
  {
    IntToString(m.coordinate.x) + ";" + IntToString(m.coordinate.y) + ";" + IntToString(m.theta) + ";" + IntToString(m.kind)
  }

  function OptionalNumber(o: Option<uint16>): string
  {
    if o.Some? then IntToString(o.value) else NA
  }

  function CoreField(c: Core): string
  {
    IntToString(c.coordinate.x) + ";" + IntToString(c.coordinate.y) + ";" + OptionalNumber(c.direction)
  }

  function DeltaField(d: Delta): string
  {
    var s := IntToString(d.coordinate.x) + ";" + IntToString(d.coordinate.y) + ";";
    if d.direction.Some? then
      var t := d.direction.value;
      s + OptionalNumber(t.first) + ";" + OptionalNumber(t.second) + ";" + OptionalNumber(t.third) + ";"
    else s
  }

  /** A field rendering with no character that the CSV layout or `splice` gives meaning to. */
  predicate Bare(s: string)
  {
    forall i :: 0 <= i < |s| ==> s[i] != ',' && s[i] != '"' && s[i] != '|' && s[i] != '\\' && s[i] != '\n'
  }

  function Count(s: string, c: char): nat
  {
    if s == [] then 0 else (if s[0] == c then 1 else 0) + Count(s[1..], c)
  }

  lemma {:induction false} CountAppend(a: string, b: string, c: char)
    ensures Count(a + b, c) == Count(a, c) + Count(b, c)
  {
    if a != [] {
      assert (a + b)[0] == a[0];
      assert (a + b)[1..] == a[1..] + b;
      CountAppend(a[1..], b, c);
      assert Count(a + b, c) == (if a[0] == c then 1 else 0) + Count((a + b)[1..], c);
    } else {
      assert a + b == b;
    }
  }

  lemma {:induction false} CountAbsent(s: string, c: char)
    requires forall i :: 0 <= i < |s| ==> s[i] != c
    ensures Count(s, c) == 0
  {
    if s != [] {
      CountAbsent(s[1..], c);
    }
  }

  /** A number or `NA` holds no separator at all. */
  lemma {:induction false} NumberFieldBare(i: int)
    ensures Bare(IntToString(i)) && Count(IntToString(i), ';') == 0
    ensures Bare(NA) && Count(NA, ';') == 0
  {
    IntToStringNumeral(i);
    CountAbsent(IntToString(i), ';');
    CountAbsent(NA, ';');
  }

  lemma {:induction false} OptionalNumberBare(o: Option<uint16>)
    ensures Bare(OptionalNumber(o)) && Count(OptionalNumber(o), ';') == 0
  {
    NumberFieldBare(if o.Some? then o.value else 0);
  }

  lemma {:induction false} BareAppend(a: string, b: string)
    requires Bare(a) && Bare(b)
    ensures Bare(a + b)
  {
    assert forall i :: |a| <= i < |a + b| ==> (a + b)[i] == b[i - |a|];
  }

  /**
   * Each element rendering is free of `,`, `"`, `|`, `\` and line breaks,
   * and has a fixed number of `;`-separated members: 2 for a coordinate,
   * 4 for a minutia, 3 for a core, and for a delta 2 members plus three
   * more exactly when its direction tuple is present.
   */
  lemma {:induction false} ElementFieldsShape(c: Coordinate, m: Minutia, k: Core, d: Delta)
    ensures Bare(CoordinateField(c)) && Count(CoordinateField(c), ';') == 1
    ensures Bare(MinutiaField(m)) && Count(MinutiaField(m), ';') == 3
    ensures Bare(CoreField(k)) && Count(CoreField(k), ';') == 2
    ensures Bare(DeltaField(d)) && Count(DeltaField(d), ';') == (if d.direction.Some? then 5 else 2)
  {
    var semi := ";";
    assert Bare(semi);
    assert Count(semi, ';') == 1;
    NumberFieldBare(c.x);
    NumberFieldBare(c.y);
    BareAppend(IntToString(c.x), semi);
    BareAppend(IntToString(c.x) + semi, IntToString(c.y));
    CountAppend(IntToString(c.x), semi, ';');
    CountAppend(IntToString(c.x) + semi, IntToString(c.y), ';');
    MinutiaShape(m);
    CoreShape(k);
    DeltaShape(d);
  }

  lemma {:induction false} Chain2(a: string, b: string)
    requires Bare(a) && Bare(b)
    ensures Bare(a + ";" + b) && Count(a + ";" + b, ';') == Count(a, ';') + 1 + Count(b, ';')
  {
    var semi := ";";
    assert Bare(semi) && Count(semi, ';') == 1;
    BareAppend(a, semi);
    BareAppend(a + semi, b);
    CountAppend(a, semi, ';');
    CountAppend(a + semi, b, ';');
  }

  lemma {:induction false} MinutiaShape(m: Minutia)
    ensures Bare(MinutiaField(m)) && Count(MinutiaField(m), ';') == 3
  {
    var x, y, t, k := IntToString(m.coordinate.x), IntToString(m.coordinate.y), IntToString(m.theta), IntToString(m.kind);
    NumberFieldBare(m.coordinate.x);
    NumberFieldBare(m.coordinate.y);
    NumberFieldBare(m.theta);
    NumberFieldBare(m.kind);
    Chain2(x, y);
    Chain2(x + ";" + y, t);
    Chain2(x + ";" + y + ";" + t, k);
  }

  lemma {:induction false} CoreShape(c: Core)
    ensures Bare(CoreField(c)) && Count(CoreField(c), ';') == 2
  {
    var x, y := IntToString(c.coordinate.x), IntToString(c.coordinate.y);
    NumberFieldBare(c.coordinate.x);
    NumberFieldBare(c.coordinate.y);
    OptionalNumberBare(c.direction);
    Chain2(x, y);
    Chain2(x + ";" + y, OptionalNumber(c.direction));
  }

  lemma {:induction false} DeltaShape(d: Delta)
    ensures Bare(DeltaField(d)) && Count(DeltaField(d), ';') == (if d.direction.Some? then 5 else 2)
  {
    var x, y := IntToString(d.coordinate.x), IntToString(d.coordinate.y);
    var semi := ";";
    assert Bare(semi) && Count(semi, ';') == 1;
    NumberFieldBare(d.coordinate.x);
    NumberFieldBare(d.coordinate.y);
    Chain2(x, y);
    var s := x + ";" + y;
    BareAppend(s, semi);
    CountAppend(s, semi, ';');
    if d.direction.Some? {
      var t := d.direction.value;
      var a, b, c := OptionalNumber(t.first), OptionalNumber(t.second), OptionalNumber(t.third);
      OptionalNumberBare(t.first);
      OptionalNumberBare(t.second);
      OptionalNumberBare(t.third);
      BareAppend(s + semi, a);
      CountAppend(s + semi, a, ';');
      Chain2(s + semi + a, b);
      Chain2(s + semi + a + ";" + b, c);
      BareAppend(s + semi + a + ";" + b + ";" + c, semi);
      CountAppend(s + semi + a + ";" + b + ";" + c, semi, ';');
    }
  }
}
