/**
 * The pieces every row of the validation driver's logs is made of: quoted
 * identifiers, numbers, `NA`, the `|`-separated splices of optional EFS
 * vectors, and the rule that the first exception met while a row is being
 * built is the one that escapes.
 */
module LogCells {
  import opened Wrappers
  import opened Text
  import opened Csv
  import opened ValidationUtils

  /** `'"' + s + '"'`: a text put between double quotes, nothing escaped. */
  function Quote(s: string): string { "\"" + s + "\"" }

  /** `m ? *m : ""`: the text of an optional message. */
  function MessageText(m: Option<string>): string { if m.Some? then m.value else "" }

  /**
   * `o ? splice(*o) : NA` (unquoted) and `o ? '"' + splice(*o) + '"' : NA`
   * (quoted): the `|`-separated renderings, or the exception `splice`
   * throws on an empty vector.
   */
  function SpliceCell<T>(o: Option<seq<T>>, render: T -> string, quoted: bool): (r: Outcome<string>)
    ensures r.Raised? <==> o.Some? && o.value == []
  {
    if o.None? then Ok(NA)
    else
      var items := Rendered(o.value, render);
      SpliceIsJoin(items, "|");
      var s := SpliceResult(items, "|");
      if s.Raised? then Raised(s.what) else Ok(if quoted then Quote(s.value) else s.value)
  }

  /**
   * Values produced left to right, as the statements building a row or a
   * vector run: all of them, or the first exception raised by one of them.
   */
  function Collect<T>(os: seq<Outcome<T>>): (r: Outcome<seq<T>>)
    ensures r.Ok? <==> forall k :: 0 <= k < |os| ==> os[k].Ok?
    ensures r.Ok? ==> |r.value| == |os| && forall k :: 0 <= k < |os| ==> r.value[k] == os[k].value
    ensures r.Raised? ==>
      exists k :: 0 <= k < |os| && os[k].Raised? && r.what == os[k].what && forall j :: 0 <= j < k ==> os[j].Ok?
  {
    if os == [] then Ok([])
    else if os[0].Raised? then Raised(os[0].what)
    else
      var rest := Collect(os[1..]);
      if rest.Raised? then
        var k :| 0 <= k < |os[1..]| && os[1..][k].Raised? && rest.what == os[1..][k].what &&
          forall j :: 0 <= j < k ==> os[1..][j].Ok?;
        assert os[k + 1].Raised? && forall j :: 0 <= j < k + 1 ==> os[j].Ok? by {
          forall j | 0 <= j < k + 1 ensures os[j].Ok? {
            if j > 0 { assert os[j] == os[1..][j - 1]; }
          }
        }
        Raised(rest.what)
      else
        Ok([os[0].value] + rest.value)
  }

  /** Values all produced: collecting gives them back. */
  lemma {:induction false} CollectAllOk<T>(os: seq<Outcome<T>>, vs: seq<T>)
    requires |vs| == |os| && forall k :: 0 <= k < |os| ==> os[k] == Ok(vs[k])
    ensures Collect(os) == Ok(vs)
  {
    var r := Collect(os);
    assert r.value == vs;
  }

  /** The first exception is the one collecting raises. */
  lemma {:induction false} CollectFirstRaised<T>(os: seq<Outcome<T>>, i: nat)
    requires i < |os| && os[i].Raised? && forall k :: 0 <= k < i ==> os[k].Ok?
    ensures Collect(os) == Raised(os[i].what)
  {
    var r := Collect(os);
    var k :| 0 <= k < |os| && os[k].Raised? && r.what == os[k].what && forall j :: 0 <= j < k ==> os[j].Ok?;
    assert k == i;
  }

  /** A text with no comma, quote, backslash or line break. */
  predicate Inert(s: string)
  {
    forall i :: 0 <= i < |s| ==> s[i] != ',' && s[i] != '"' && s[i] != '\\' && s[i] != '\n'
  }

  /** A text with no line break: it stays on its row of the log. */
  predicate OneLine(s: string) { forall i :: 0 <= i < |s| ==> s[i] != '\n' }

  /** One field of a row: it closes every quote it opens and holds no line break. */
  predicate Field(s: string) { Cell(s) && OneLine(s) }

  predicate Fields(cells: seq<string>) { forall k :: 0 <= k < |cells| ==> Field(cells[k]) }

  lemma {:induction false} FieldsAppend(a: seq<string>, b: seq<string>)
    requires Fields(a) && Fields(b)
    ensures Fields(a + b)
  {
    forall k | 0 <= k < |a + b| ensures Field((a + b)[k]) {
      if k >= |a| {
        assert (a + b)[k] == b[k - |a|];
      }
    }
  }

  lemma {:induction false} InertCells(s: string)
    requires Inert(s)
    ensures Cell(s) && Cell(Quote(s))
    ensures OneLine(s) && OneLine(Quote(s))
    ensures Field(s) && Field(Quote(s))
  {
    PlainCell(s);
    QuotedCell(s);
  }

  lemma {:induction false} NumberInert(i: int)
    ensures Inert(IntToString(i)) && Inert(NA)
  {
    IntToStringNumeral(i);
  }

  lemma {:induction false} InertAppend(a: string, b: string)
    requires Inert(a) && Inert(b)
    ensures Inert(a + b)
  {
    assert forall i :: |a| <= i < |a + b| ==> (a + b)[i] == b[i - |a|];
  }

  lemma {:induction false} InertJoin(parts: seq<string>, sep: string)
    requires Inert(sep) && forall k :: 0 <= k < |parts| ==> Inert(parts[k])
    ensures Inert(Join(parts, sep))
  {
    if |parts| > 1 {
      InertJoin(parts[1..], sep);
      InertAppend(parts[0], sep);
      InertAppend(parts[0] + sep, Join(parts[1..], sep));
    }
  }

  /**
   * A present splice of inert renderings is inert, so it is one field
   * whether it is quoted or not; an absent one is `NA`.
   */
  lemma {:induction false} SpliceCellIsCell<T>(o: Option<seq<T>>, render: T -> string, quoted: bool)
    requires o.Some? ==> forall k :: 0 <= k < |o.value| ==> Inert(render(o.value[k]))
    ensures SpliceCell(o, render, quoted).Ok? ==> Field(SpliceCell(o, render, quoted).value)
  {
    NumberInert(0);
    if o.Some? {
      var items := Rendered(o.value, render);
      SpliceIsJoin(items, "|");
      InertJoin(items, "|");
      InertCells(Join(items, "|"));
    } else {
      InertCells(NA);
    }
  }

  /** The cells of two non-empty lists, joined, are the two joins with a comma between. */
  lemma {:induction false} JoinConcat(a: seq<string>, b: seq<string>, sep: string)
    requires a != [] && b != []
    ensures Join(a + b, sep) == Join(a, sep) + sep + Join(b, sep)
  {
    if |a| == 1 {
      assert (a + b)[1..] == b;
    } else {
      assert (a + b)[1..] == a[1..] + b;
      JoinConcat(a[1..], b, sep);
    }
  }

  lemma {:induction false} OneLineJoin(parts: seq<string>, sep: string)
    requires OneLine(sep) && forall k :: 0 <= k < |parts| ==> OneLine(parts[k])
    ensures OneLine(Join(parts, sep))
  {
    if |parts| > 1 {
      OneLineJoin(parts[1..], sep);
      var a, b := parts[0] + sep, Join(parts[1..], sep);
      assert forall i :: |a| <= i < |a + b| ==> (a + b)[i] == b[i - |a|];
    }
  }

  /**
   * Cells that are each one field and on one line, joined by commas: a row
   * with exactly one field per cell.
   */
  lemma {:induction false} RowOfCells(cells: seq<string>)
    requires cells != [] && Fields(cells)
    ensures FieldCount(Join(cells, ",")) == |cells| && OneLine(Join(cells, ","))
  {
    JoinedCells(cells);
    OneLineJoin(cells, ",");
  }

  lemma {:induction false} JoinFour(a: string, b: string, c: string, d: string, sep: string)
    ensures Join([a, b, c, d], sep) == a + sep + b + sep + c + sep + d
  {
    assert [a, b, c, d][1..] == [b, c, d];
    assert [b, c, d][1..] == [c, d];
    assert [c, d][1..] == [d];
    assert Join([c, d], sep) == c + sep + d;
    assert Join([b, c, d], sep) == b + sep + (c + sep + d);
    assert Join([a, b, c, d], sep) == a + sep + (b + sep + (c + sep + d));
  }

  lemma {:induction false} JoinFive(a: string, b: string, c: string, d: string, e: string, sep: string)
    ensures Join([a, b, c, d, e], sep) == a + sep + b + sep + c + sep + d + sep + e
  {
    assert [a, b, c, d, e][1..] == [b, c, d, e];
    JoinFour(b, c, d, e, sep);
    assert Join([a, b, c, d, e], sep) == a + sep + (b + sep + c + sep + d + sep + e);
  }
}
