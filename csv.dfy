/**
 * The comma-separated logs of the validation driver: how a log line splits
 * into fields, and `sanitizeMessage`, which turns an implementation's
 * message into one quoted field.
 *
 * Fields are separated by commas outside double quotes; inside quotes a
 * backslash escapes the next character, the escape `sanitizeMessage` uses
 * for embedded quotes.
 */
module Csv {
  import opened Text

  datatype ScanState = Outside | Quoted | Escaped

  function Step(st: ScanState, c: char): ScanState
  {
    match st
    case Outside => if c == '"' then Quoted else Outside
    case Quoted => if c == '"' then Outside else if c == '\\' then Escaped else Quoted
    case Escaped => Quoted
  }

  /** Reading `s` from state `st`: the state after it, and the field separators met on the way. */
  function Scan(s: string, st: ScanState): (ScanState, nat)
  {
    if s == [] then (st, 0)
    else
      var rest := Scan(s[1..], Step(st, s[0]));
      (rest.0, rest.1 + (if st == Outside && s[0] == ',' then 1 else 0))
  }

  /** A text that stands for exactly one field: no separator outside quotes, no quote left open. */
  predicate Cell(s: string) { Scan(s, Outside) == (Outside, 0) }

  /** The number of fields of a line whose quotes are all closed. */
  function FieldCount(line: string): nat
  {
    Scan(line, Outside).1 + 1
  }

  lemma {:induction false} ScanAppend(a: string, b: string, st: ScanState)
    ensures Scan(a + b, st) ==
      (Scan(b, Scan(a, st).0).0, Scan(a, st).1 + Scan(b, Scan(a, st).0).1)
  {
    if a == [] {
      assert a + b == b;
    } else {
      assert (a + b)[0] == a[0];
      assert (a + b)[1..] == a[1..] + b;
      ScanAppend(a[1..], b, Step(st, a[0]));
    }
  }

  /**
   * Cells joined by commas make a line with one field per cell, all quotes
   * closed: the property every log row relies on to match its header.
   */
  lemma {:induction false} JoinedCells(cells: seq<string>)
    requires cells != []
    requires forall i :: 0 <= i < |cells| ==> Cell(cells[i])
    ensures Scan(Join(cells, ","), Outside) == (Outside, |cells| - 1)
    ensures FieldCount(Join(cells, ",")) == |cells|
  {
    if |cells| > 1 {
      JoinedCells(cells[1..]);
      var comma := ",";
      assert Scan(comma, Outside) == (Outside, 1);
      ScanAppend(cells[0], comma, Outside);
      ScanAppend(cells[0] + comma, Join(cells[1..], ","), Outside);
    }
  }

  /** A text without commas and quotes is one field. */
  lemma {:induction false} PlainCell(s: string)
    requires forall i :: 0 <= i < |s| ==> s[i] != ',' && s[i] != '"'
    ensures Cell(s)
  {
    if s != [] {
      PlainCell(s[1..]);
    }
  }

  /** Inside quotes, a text without quotes and backslashes is read as it is, commas included. */
  lemma {:induction false} QuotedInner(s: string)
    requires forall i :: 0 <= i < |s| ==> s[i] != '"' && s[i] != '\\'
    ensures Scan(s, Quoted) == (Quoted, 0)
  {
    if s != [] {
      QuotedInner(s[1..]);
    }
  }

  /** A text without quotes and backslashes, wrapped in quotes, is one field. */
  lemma {:induction false} QuotedCell(s: string)
    requires forall i :: 0 <= i < |s| ==> s[i] != '"' && s[i] != '\\'
    ensures Cell("\"" + s + "\"")
  {
    QuotedInner(s);
    ScanAppend("\"", s, Outside);
    ScanAppend("\"" + s, "\"", Outside);
  }

  // ---- sanitizeMessage ----

  /** `std::isgraph(c) || c == ' '` in the "C" locale. */
  predicate Printable(c: char) { ' ' <= c <= '~' }

  /** Each character that is neither graphical nor a space becomes a space. */
  function Cleaned(s: string): (r: string)
    ensures |r| == |s|
    ensures forall i :: 0 <= i < |s| ==> r[i] == if Printable(s[i]) then s[i] else ' '
  {
    if s == [] then [] else [if Printable(s[0]) then s[0] else ' '] + Cleaned(s[1..])
  }

  /** Each `"` becomes `\"`. */
  function EscapeQuotes(s: string): string
  {
    if s == [] then [] else (if s[0] == '"' then "\\\"" else [s[0]]) + EscapeQuotes(s[1..])
  }

  function QuoteCount(s: string): nat
  {
    if s == [] then 0 else (if s[0] == '"' then 1 else 0) + QuoteCount(s[1..])
  }

  /** What `sanitizeMessage(message, escapeQuotes, wrapInQuotes)` returns. */
  function Sanitized(message: string, escapeQuotes: bool, wrapInQuotes: bool): string
  {
    if message == [] then (if wrapInQuotes then "\"\"" else message)
    else
      var t := if escapeQuotes then EscapeQuotes(Cleaned(message)) else Cleaned(message);
      if wrapInQuotes then "\"" + t + "\"" else t
  }

  /** `std::find_if_not(..., printable)`: the first unprintable position, or the length. */
  function FirstUnprintable(s: string): (k: nat)
    ensures k <= |s| && (k < |s| ==> !Printable(s[k]))
    ensures forall j :: 0 <= j < k ==> Printable(s[j])
  {
    if s == [] then 0 else if !Printable(s[0]) then 0 else 1 + FirstUnprintable(s[1..])
  }

  /** `std::string::find(c, from)`: the first position at or after `from` holding `c`, or the length. */
  function Find(s: string, c: char, from: nat): (k: nat)
    requires from <= |s|
    ensures from <= k <= |s| && (k < |s| ==> s[k] == c)
    ensures forall j :: from <= j < k ==> s[j] != c
    decreases |s| - from
  {
    if from == |s| then from else if s[from] == c then from else Find(s, c, from + 1)
  }

  function Unprintables(s: string): set<nat>
  {
    set j | 0 <= j < |s| && !Printable(s[j])
  }

  /**
   * `sanitizeMessage`: an empty message gives `""` (or nothing when not
   * wrapping); otherwise the unprintable characters are blanked, then each
   * quote is escaped, and the result is wrapped in quotes.
   */
  method SanitizeMessage(message: string, escapeQuotes: bool, wrapInQuotes: bool) returns (r: string)
    ensures r == Sanitized(message, escapeQuotes, wrapInQuotes)
  {
    if message == [] {
      return if wrapInQuotes then "\"\"" else message;
    }
    var s := BlankUnprintable(message);
    if escapeQuotes {
      s := EscapeEachQuote(s);
    }
    r := if wrapInQuotes then "\"" + s + "\"" else s;
  }

  /**
   * The first loop of `sanitizeMessage`: the first unprintable character is
   * replaced by a space, and the search starts over from the beginning.
   */
  method BlankUnprintable(message: string) returns (s: string)
    ensures s == Cleaned(message)
  {
    s := message;
    var k := FirstUnprintable(s);
    while k < |s|
      invariant |s| == |message| && k == FirstUnprintable(s)
      invariant forall j :: 0 <= j < |s| ==> s[j] == message[j] || (s[j] == ' ' && !Printable(message[j]))
      decreases |Unprintables(s)|
    {
      ghost var before := Unprintables(s);
      s := s[k := ' '];
      assert |Unprintables(s)| < |before| by {
        assert before == Unprintables(s) + {k} && k !in Unprintables(s);
      }
      k := FirstUnprintable(s);
    }
  }

  /**
   * The second loop of `sanitizeMessage`: each `"` found is replaced by
   * `\"`, and the search resumes after the inserted text.
   */
  method EscapeEachQuote(t: string) returns (s: string)
    ensures s == EscapeQuotes(t)
  {
    s := t;
    ghost var done := 0;
    var position := 0;
    while true
      invariant done <= |t|
      invariant s == EscapeQuotes(t[..done]) + t[done..]
      invariant position == |EscapeQuotes(t[..done])|
      decreases |t| - done
    {
      ghost var e, u := EscapeQuotes(t[..done]), t[done..];
      FindShift(e, u, '"', 0);
      position := Find(s, '"', position);
      ghost var gap := position - |e|;
      if position == |s| {
        EscapeRest(t, done);
        break;
      }
      EscapeStep(t, done, gap);
      ReplaceAt(s, e, t, done, gap);
      s := s[..position] + "\\\"" + s[position + 1..];
      position := position + 2;
      done := done + gap + 1;
    }
  }

  /** Replacing the quote `gap` characters into the unescaped rest of the text. */
  lemma {:induction false} ReplaceAt(s: string, e: string, t: string, done: nat, gap: nat)
    requires done + gap < |t| && s == e + t[done..]
    ensures s[..|e| + gap] + "\\\"" + s[|e| + gap + 1..] == (e + t[done..done + gap] + "\\\"") + t[done + gap + 1..]
  {
    assert s[..|e| + gap] == e + t[done..done + gap];
    assert s[|e| + gap + 1..] == t[done + gap + 1..];
  }

  lemma {:induction false} FindShift(e: string, u: string, c: char, j: nat)
    requires j <= |u|
    ensures Find(e + u, c, |e| + j) == |e| + Find(u, c, j)
    decreases |u| - j
  {
    if j < |u| {
      assert (e + u)[|e| + j] == u[j];
      FindShift(e, u, c, j + 1);
    }
  }

  /** No quote is left after `done`: escaping the prefix escapes the whole text. */
  lemma {:induction false} EscapeRest(t: string, done: nat)
    requires done <= |t|
    requires Find(t[done..], '"', 0) == |t| - done
    ensures EscapeQuotes(t[..done]) + t[done..] == EscapeQuotes(t)
  {
    NoQuotesUnchanged(t[done..]);
    EscapeQuotesAppend(t[..done], t[done..]);
    assert t[..done] + t[done..] == t;
  }

  /** The next quote after `done` is `gap` characters further on: one more escape. */
  lemma {:induction false} EscapeStep(t: string, done: nat, gap: nat)
    requires done + gap < |t|
    requires Find(t[done..], '"', 0) == gap
    ensures EscapeQuotes(t[..done + gap + 1]) == EscapeQuotes(t[..done]) + t[done..done + gap] + "\\\""
  {
    assert forall j :: 0 <= j < gap ==> t[done..done + gap][j] == t[done..][j];
    NoQuotesUnchanged(t[done..done + gap]);
    EscapeQuotesAppend(t[..done], t[done..done + gap]);
    assert t[done + gap] == t[done..][gap] == '"';
    assert EscapeQuotes([t[done + gap]]) == "\\\"";
    EscapeQuotesAppend(t[..done] + t[done..done + gap], [t[done + gap]]);
    assert t[..done] + t[done..done + gap] + [t[done + gap]] == t[..done + gap + 1];
  }

  lemma {:induction false} EscapeQuotesAppend(a: string, b: string)
    ensures EscapeQuotes(a + b) == EscapeQuotes(a) + EscapeQuotes(b)
  {
    if a == [] {
      assert a + b == b;
    } else {
      assert (a + b)[0] == a[0];
      assert (a + b)[1..] == a[1..] + b;
      EscapeQuotesAppend(a[1..], b);
    }
  }

  lemma {:induction false} NoQuotesUnchanged(s: string)
    requires forall j :: 0 <= j < |s| ==> s[j] != '"'
    ensures EscapeQuotes(s) == s
  {
    if s != [] {
      NoQuotesUnchanged(s[1..]);
    }
  }

  lemma {:induction false} EscapeQuotesLength(s: string)
    ensures |EscapeQuotes(s)| == |s| + QuoteCount(s)
  {
    if s != [] {
      EscapeQuotesLength(s[1..]);
    }
  }

  lemma {:induction false} CleanedKeepsQuotes(s: string)
    ensures QuoteCount(Cleaned(s)) == QuoteCount(s)
  {
    if s != [] {
      CleanedKeepsQuotes(s[1..]);
      assert Cleaned(s)[1..] == Cleaned(s[1..]);
    }
  }

  /** Escaping quotes of a text without backslashes leaves every field separator inside the quotes. */
  lemma {:induction false} EscapedInner(s: string)
    requires forall i :: 0 <= i < |s| ==> s[i] != '\\'
    ensures Scan(EscapeQuotes(s), Quoted) == (Quoted, 0)
  {
    if s != [] {
      EscapedInner(s[1..]);
      var head := if s[0] == '"' then "\\\"" else [s[0]];
      if s[0] == '"' {
        var quote := "\"";
        assert quote[1..] == [];
        assert Scan(quote, Escaped) == (Quoted, 0);
        assert head[0] == '\\' && head[1..] == quote;
      } else {
        assert head[1..] == [];
        assert Step(Quoted, head[0]) == Quoted;
      }
      assert Scan(head, Quoted) == (Quoted, 0);
      ScanAppend(head, EscapeQuotes(s[1..]), Quoted);
    }
  }

  /**
   * The default `sanitizeMessage` adds one character per quote plus the two
   * wrapping quotes, and keeps everything else one for one; a message
   * without backslashes becomes exactly one field.
   */
  lemma {:induction false} SanitizedField(message: string)
    ensures |Sanitized(message, true, true)| == |message| + QuoteCount(message) + 2
    ensures message == [] ==> Sanitized(message, true, true) == "\"\""
    ensures (forall i :: 0 <= i < |message| ==> message[i] != '\\') ==> Cell(Sanitized(message, true, true))
  {
    var t := Cleaned(message);
    EscapeQuotesLength(t);
    CleanedKeepsQuotes(message);
    if forall i :: 0 <= i < |message| ==> message[i] != '\\' {
      var e := EscapeQuotes(t);
      if message == [] {
        assert Scan("\"\"", Outside) == (Outside, 0);
      } else {
        EscapedInner(t);
        ScanAppend("\"", e, Outside);
        ScanAppend("\"" + e, "\"", Outside);
      }
    }
  }

  /**
   * A backslash is not escaped: a message ending in one escapes the closing
   * quote, and the rest of the line is read as part of the message.
   */
  lemma {:induction false} TrailingBackslashOpensField()
    ensures Sanitized("a\\", true, true) == "\"a\\\""
    ensures !Cell(Sanitized("a\\", true, true))
    ensures Scan(Sanitized("a\\", true, true), Outside).0 == Quoted
  {
    assert Cleaned("a\\") == "a\\";
    assert EscapeQuotes("a\\") == "a\\";
  }
}
