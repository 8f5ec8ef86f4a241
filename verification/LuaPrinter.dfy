/** The pretty printer itself: it writes piece by piece to an indenting stream, and
    what comes out is the text of the expression (src/lua_ast.rs). */
module LuaPrinter {
  import opened LuaSyntax

  /** What is in the stream: level, whether a line has just started, and output. */
  datatype Stream = Stream(level: nat, start: bool, out: string)

  /** Writing one character: a line break starts a line, and the first other
      character of a line comes after the indentation. */
  function WriteChar(st: Stream, c: char): (r: Stream) {
    if c == '\n' then st.(start := true, out := st.out + "\n")
    else st.(start := false, out := st.out + (if st.start then Tabs(st.level) else "") + [c])
  }

  function Write(st: Stream, value: string): (r: Stream)
    decreases |value|
  {
    if value == "" then st else Write(WriteChar(st, value[0]), value[1..])
  }

  lemma {:induction false} WriteTwice(st: Stream, a: string, b: string)
    ensures Write(st, a + b) == Write(Write(st, a), b)
    decreases |a|
  {
    if a == "" {
      assert a + b == b;
    } else {
      assert (a + b)[0] == a[0] && (a + b)[1..] == a[1..] + b;
      WriteTwice(WriteChar(st, a[0]), a[1..], b);
    }
  }

  /** The indentation still owed. */
  function Lead(st: Stream): (r: string) {
    if st.start then Tabs(st.level) else ""
  }

  /** A text without line breaks goes out in one piece, after the indentation. */
  lemma {:induction false} WriteLine(st: Stream, line: string)
    requires line != "" && '\n' !in line
    ensures Write(st, line) == st.(start := false, out := st.out + Lead(st) + line)
    decreases |line|
  {
    var next := WriteChar(st, line[0]);
    assert line[0] in line;
    if |line| > 1 {
      WriteLine(next, line[1..]);
      assert st.out + Lead(st) + [line[0]] + line[1..] == st.out + Lead(st) + line;
    } else {
      assert line == [line[0]];
    }
  }

  lemma WriteBreak(st: Stream)
    ensures Write(st, "\n") == st.(start := true, out := st.out + "\n")
  {
    assert "\n"[1..] == "";
    assert Write(WriteChar(st, '\n'), "") == WriteChar(st, '\n');
  }

  class LuaStream {
    var indentLevel: nat
    var isStartOfLine: bool
    var inner: string

    function State(): (st: Stream)
      reads this
    {
      Stream(indentLevel, isStartOfLine, inner)
    }

    constructor ()
      ensures State() == Stream(0, true, "")
    {
      indentLevel, isStartOfLine, inner := 0, true, "";
    }

    method Indent()
      modifies this
      ensures State() == old(State()).(level := old(indentLevel) + 1)
    {
      indentLevel := indentLevel + 1;
    }

    method Unindent()
      requires indentLevel > 0
      modifies this
      ensures State() == old(State()).(level := old(indentLevel) - 1)
    {
      indentLevel := indentLevel - 1;
    }

    method Line()
      modifies this
      ensures State() == old(State()).(start := true, out := old(inner) + "\n")
    {
      isStartOfLine := true;
      inner := inner + "\n";
    }

    /** Splits at the line breaks; each line but the first starts a new one, and an
        empty line gets no indentation. */
    method WriteStr(value: string)
      modifies this
      ensures State() == Write(old(State()), value)
    {
      ghost var before := State();
      var rest := value;
      var more := true;
      var isFirstLine := true;
      while more
        invariant more && isFirstLine ==> State() == before && rest == value
        invariant more && !isFirstLine ==> Write(WriteChar(State(), '\n'), rest) == Write(before, value)
        invariant !more ==> State() == Write(before, value)
        decreases if more then 1 + |rest| else 0
      {
        ghost var at := State();
        var n := FindBreak(rest);
        var line := rest[..n];
        if isFirstLine {
          isFirstLine := false;
        } else {
          Line();
        }
        ghost var lined := State();
        assert Write(lined, rest) == Write(before, value);
        if line != "" {
          WriteLine(lined, line);
          if isStartOfLine {
            isStartOfLine := false;
            inner := inner + Tabs(indentLevel);
          }
          inner := inner + line;
        }
        assert State() == Write(lined, line);
        WriteTwice(lined, line, rest[n..]);
        assert rest == line + rest[n..];
        if n < |rest| {
          rest := rest[n + 1..];
        } else {
          more := false;
        }
      }
    }
  }

  method FindBreak(s: string) returns (n: nat)
    ensures n <= |s| && '\n' !in s[..n] && (n < |s| ==> s[n] == '\n')
  {
    n := 0;
    while n < |s| && s[n] != '\n'
      invariant n <= |s| && '\n' !in s[..n]
    {
      n := n + 1;
    }
  }

  // ----- what the printers write -----

  /** `r` is `st` after a text that was not empty, ends inside a line and contains
      its own indentation except for the first line. */
  ghost predicate Wrote(st: Stream, r: Stream, text: string) {
    r == st.(start := false, out := st.out + Lead(st) + text)
  }

  lemma WroteTwice(a: Stream, b: Stream, c: Stream, s: string, t: string)
    requires Wrote(a, b, s) && Wrote(b, c, t)
    ensures Wrote(a, c, s + t)
  {
    assert a.out + Lead(a) + s + "" + t == a.out + Lead(a) + (s + t);
  }

  lemma PieceHasNoBreak(c: char)
    ensures EscapeChar(c) != "" && '\n' !in EscapeChar(c)
  {
  }

  lemma WriteInLine(st: Stream, line: string)
    requires !st.start && line != "" && '\n' !in line
    ensures Write(st, line) == st.(out := st.out + line)
  {
    WriteLine(st, line);
    assert st.out + "" == st.out;
  }

  lemma EscapeNext(done: string, rest: string)
    requires rest != ""
    ensures (done + EscapeChar(rest[0])) + Escape(rest[1..]) == done + Escape(rest)
  {
    Joined(done, EscapeChar(rest[0]), Escape(rest[1..]));
  }

  method WriteEscaped(s: string, output: LuaStream)
    requires !output.isStartOfLine
    modifies output
    ensures output.State() == old(output.State()).(out := old(output.inner) + Escape(s))
  {
    var rest := s;
    ghost var before := output.State();
    while rest != ""
      invariant !output.isStartOfLine && output.indentLevel == before.level
      invariant output.inner + Escape(rest) == before.out + Escape(s)
      decreases |rest|
    {
      var piece := EscapeChar(rest[0]);
      ghost var now := output.State();
      PieceHasNoBreak(rest[0]);
      WriteInLine(now, piece);
      output.WriteStr(piece);
      EscapeNext(now.out, rest);
      rest := rest[1..];
    }
  }

  method FmtString(s: string, output: LuaStream)
    modifies output
    ensures Wrote(old(output.State()), output.State(), Quoted(s))
  {
    ghost var before := output.State();
    WriteLine(before, "\"");
    output.WriteStr("\"");
    WriteEscaped(s, output);
    WriteLine(output.State(), "\"");
    output.WriteStr("\"");
    assert before.out + Lead(before) + "\"" + Escape(s) + "" + "\"" == before.out + Lead(before) + Quoted(s);
  }

  lemma NumberHasNoBreak(n: Number)
    requires IsNumber(n)
    ensures NumberText(n) != "" && '\n' !in NumberText(n)
  {
  }

  method FmtNumber(n: Number, output: LuaStream)
    requires IsNumber(n)
    modifies output
    ensures Wrote(old(output.State()), output.State(), NumberText(n))
  {
    NumberHasNoBreak(n);
    WriteLine(output.State(), NumberText(n));
    match n
    case NotANumber => output.WriteStr("0/0");
    case Infinite(negative) =>
      if negative { output.WriteStr("-math.huge"); } else { output.WriteStr("math.huge"); }
    case Decimal(_, _, _) => output.WriteStr(NumberText(n));
  }

  /** Writes a piece without line breaks. */
  method WritePiece(piece: string, output: LuaStream)
    requires piece != "" && '\n' !in piece
    modifies output
    ensures Wrote(old(output.State()), output.State(), piece)
  {
    WriteLine(output.State(), piece);
    output.WriteStr(piece);
  }

  method FmtLua(e: Expression, output: LuaStream)
    requires Printable(e)
    modifies output
    ensures Wrote(old(output.State()), output.State(), Text(e, old(output.indentLevel)))
    decreases e, 0
  {
    match e
    case Nil => WritePiece("nil", output);
    case Bool(truth) => WritePiece(if truth then "true" else "false", output);
    case Num(number) => FmtNumber(number, output);
    case Str(text) => FmtString(text, output);
    case Table(entries) => FmtTable(entries, output);
    case Array(items) => FmtArray(items, output);
  }

  method FmtTableKey(e: Expression, output: LuaStream)
    requires Printable(e) && !e.Nil?
    modifies output
    ensures Wrote(old(output.State()), output.State(), KeyText(e, old(output.indentLevel)))
    decreases e, 1
  {
    if e.Str? && IsValidIdent(e.text) {
      IdentHasNoBreak(e.text);
      WritePiece(e.text, output);
    } else {
      ghost var a := output.State();
      WritePiece("[", output);
      ghost var b := output.State();
      FmtLua(e, output);
      ghost var c := output.State();
      WritePiece("]", output);
      WroteTwice(a, b, c, "[", Text(e, a.level));
      WroteTwice(a, c, output.State(), "[" + Text(e, a.level), "]");
    }
  }

  lemma IdentHasNoBreak(s: string)
    requires IsValidIdent(s)
    ensures s != "" && '\n' !in s
  {
    assert s == [s[0]] + s[1..];
  }

  method FmtArray(items: seq<Expression>, output: LuaStream)
    requires forall i :: 0 <= i < |items| ==> Printable(items[i])
    modifies output
    ensures Wrote(old(output.State()), output.State(), "{" + ItemsText(items, old(output.indentLevel)) + "}")
    decreases items, 0
  {
    ghost var a := output.State();
    WritePiece("{", output);
    ghost var done := "";
    for index := 0 to |items|
      invariant Wrote(a, output.State(), "{" + done)
      invariant done + ItemsText(items[index..], a.level) == ItemsText(items, a.level)
    {
      ghost var b := output.State();
      FmtLua(items[index], output);
      ghost var c := output.State();
      WroteTwice(a, b, c, "{" + done, Text(items[index], a.level));
      ItemsNext(items, index, a.level, done);
      assert "{" + done + Text(items[index], a.level) == "{" + (done + Text(items[index], a.level));
      done := done + Text(items[index], a.level);
      if index < |items| - 1 {
        WritePiece(", ", output);
        WroteTwice(a, c, output.State(), "{" + done, ", ");
        assert "{" + done + ", " == "{" + (done + ", ");
        done := done + ", ";
      }
    }
    ghost var d := output.State();
    WritePiece("}", output);
    assert done + ItemsText(items[|items|..], a.level) == done;
    WroteTwice(a, d, output.State(), "{" + done, "}");
  }

  lemma ItemsNext(items: seq<Expression>, k: nat, n: nat, done: string)
    requires k < |items|
    requires done + ItemsText(items[k..], n) == ItemsText(items, n)
    ensures done + Text(items[k], n) + (if k < |items| - 1 then ", " else "") + ItemsText(items[k + 1..], n) ==
      ItemsText(items, n)
  {
    assert items[k..][0] == items[k] && items[k..][1..] == items[k + 1..];
  }

  /** The lines of a table: each entry on a line of its own. */
  ghost predicate WroteLines(a: Stream, b: Stream, text: string) {
    b == a.(start := true, out := a.out + text)
  }

  method FmtEntry(entry: Entry, output: LuaStream)
    requires Printable(entry.key) && !entry.key.Nil? && Printable(entry.value) && output.isStartOfLine
    modifies output
    ensures WroteLines(old(output.State()), output.State(), EntryText(entry, old(output.indentLevel)))
    decreases entry, 3
  {
    ghost var a := output.State();
    FmtTableKey(entry.key, output);
    ghost var b := output.State();
    WritePiece(" = ", output);
    ghost var c := output.State();
    FmtLua(entry.value, output);
    ghost var d := output.State();
    WroteTwice(a, b, c, KeyText(entry.key, a.level), " = ");
    WroteTwice(a, c, d, KeyText(entry.key, a.level) + " = ", Text(entry.value, a.level));
    output.WriteStr(",\n");
    EntryClosed(a, d, KeyText(entry.key, a.level), Text(entry.value, a.level));
  }

  lemma EntryClosed(a: Stream, d: Stream, key: string, value: string)
    requires a.start && Wrote(a, d, key + " = " + value)
    ensures WroteLines(a, Write(d, ",\n"), Tabs(a.level) + key + " = " + value + ",\n")
  {
    WriteCommaLine(d);
    assert a.out + Tabs(a.level) + (key + " = " + value) + ",\n"
      == a.out + (Tabs(a.level) + key + " = " + value + ",\n");
  }

  lemma WriteCommaLine(st: Stream)
    requires !st.start
    ensures Write(st, ",\n") == st.(start := true, out := st.out + ",\n")
  {
    assert ",\n" == "," + "\n";
    WriteTwice(st, ",", "\n");
    WriteLine(st, ",");
    WriteBreak(Write(st, ","));
  }

  lemma WriteBraceLine(st: Stream)
    ensures Write(st, "{\n") == st.(start := true, out := st.out + Lead(st) + "{\n")
  {
    assert "{\n" == "{" + "\n";
    WriteTwice(st, "{", "\n");
    WriteLine(st, "{");
    WriteBreak(Write(st, "{"));
    assert st.out + Lead(st) + "{" + "\n" == st.out + Lead(st) + "{\n";
  }

  method FmtTable(entries: seq<Entry>, output: LuaStream)
    requires forall i ::
      0 <= i < |entries| ==> !entries[i].key.Nil? && Printable(entries[i].key) && Printable(entries[i].value)
    modifies output
    ensures Wrote(old(output.State()), output.State(),
                  "{\n" + EntriesText(entries, old(output.indentLevel) + 1) + Tabs(old(output.indentLevel)) + "}")
    decreases entries, 1
  {
    ghost var a := output.State();
    WriteBraceLine(a);
    output.WriteStr("{\n");
    output.Indent();
    FmtEntries(entries, output);
    output.Unindent();
    ghost var d := output.State();
    WritePiece("}", output);
    TableClosed(a, d, output.State(), EntriesText(entries, a.level + 1));
  }

  lemma TableClosed(a: Stream, d: Stream, e: Stream, lines: string)
    requires d == a.(start := true, out := a.out + Lead(a) + "{\n" + lines) && Wrote(d, e, "}")
    ensures Wrote(a, e, "{\n" + lines + Tabs(a.level) + "}")
  {
    assert d.out + Tabs(a.level) + "}" == a.out + Lead(a) + ("{\n" + lines + Tabs(a.level) + "}");
  }

  method FmtEntries(entries: seq<Entry>, output: LuaStream)
    requires forall i ::
      0 <= i < |entries| ==> !entries[i].key.Nil? && Printable(entries[i].key) && Printable(entries[i].value)
    requires output.isStartOfLine
    modifies output
    ensures WroteLines(old(output.State()), output.State(), EntriesText(entries, old(output.indentLevel)))
    decreases entries, 0
  {
    ghost var b := output.State();
    ghost var done := "";
    for index := 0 to |entries|
      invariant WroteLines(b, output.State(), done)
      invariant done + EntriesText(entries[index..], b.level) == EntriesText(entries, b.level)
    {
      FmtEntry(entries[index], output);
      EntriesNext(entries, index, b.level, done);
      assert WroteLines(b, output.State(), done + EntryText(entries[index], b.level)) by {
        Joined(b.out, done, EntryText(entries[index], b.level));
      }
      done := done + EntryText(entries[index], b.level);
    }
    assert done + EntriesText(entries[|entries|..], b.level) == done;
  }

  lemma EntriesNext(entries: seq<Entry>, k: nat, n: nat, done: string)
    requires k < |entries| && done + EntriesText(entries[k..], n) == EntriesText(entries, n)
    ensures (done + EntryText(entries[k], n)) + EntriesText(entries[k + 1..], n) == EntriesText(entries, n)
  {
    assert entries[k..][0] == entries[k] && entries[k..][1..] == entries[k + 1..];
  }

  /** `Display for Statement` */
  method Display(e: Expression) returns (text: string)
    requires Printable(e)
    ensures text == StatementText(e)
  {
    var stream := new LuaStream();
    ghost var a := stream.State();
    WritePiece("return ", stream);
    ghost var b := stream.State();
    FmtLua(e, stream);
    WroteTwice(a, b, stream.State(), "return ", Text(e, 0));
    text := stream.inner;
  }
}
