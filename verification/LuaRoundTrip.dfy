/** Reading a printed statement gives the expression back (src/lua_ast.rs). */
module LuaRoundTrip {
  import opened Basics
  import opened LuaSyntax

  /** The syntax tree a printed expression is read as. */
  function SyntaxOf(e: Expression): (r: Syntax)
    decreases e, 0
  {
    match e
    case Nil => NilWord
    case Bool(truth) => BoolWord(truth)
    case Num(number) => NumberSyntax(number)
    case Str(text) => Literal(text)
    case Array(items) => Constructor(ItemFields(items))
    case Table(entries) => Constructor(EntryFields(entries))
  }

  function NumberSyntax(n: Number): (r: Syntax) {
    match n
    case NotANumber => Divided(Numeral("0", ""), Numeral("0", ""))
    case Infinite(negative) => if negative then Negated(Member("math", "huge")) else Member("math", "huge")
    case Decimal(negative, whole, fraction) =>
      if negative then Negated(Numeral(whole, fraction)) else Numeral(whole, fraction)
  }

  function ItemFields(items: seq<Expression>): (r: seq<Field>)
    decreases items, 0
  {
    if items == [] then [] else [Field(None, SyntaxOf(items[0]))] + ItemFields(items[1..])
  }

  function EntryFields(entries: seq<Entry>): (r: seq<Field>)
    decreases entries, 0
  {
    if entries == [] then [] else [EntryField(entries[0])] + EntryFields(entries[1..])
  }

  function EntryField(entry: Entry): (r: Field)
    decreases entry, 1
  {
    Field(Some(SyntaxOf(entry.key)), SyntaxOf(entry.value))
  }

  // ----- words, spaces, strings -----

  /** What may come after a printed expression. */
  predicate Follows(rest: string) {
    rest == "" || rest[0] == ',' || rest[0] == ']' || rest[0] == '}'
  }

  lemma {:induction false} SkipsSpaces(space: string, t: string)
    requires forall c :: c in space ==> IsSpace(c)
    ensures SkipSpace(space + t) == SkipSpace(t)
  {
    if space == "" {
      assert space + t == t;
    } else {
      assert (space + t)[0] == space[0] && (space + t)[1..] == space[1..] + t;
      assert space[0] in space;
      SkipsSpaces(space[1..], t);
    }
  }

  lemma {:induction false} WordAt(w: string, rest: string)
    requires forall c :: c in w ==> IsIdentChar(c)
    requires rest == "" || !IsIdentChar(rest[0])
    ensures WordLength(w + rest) == |w|
  {
    if w == "" {
      assert w + rest == rest;
    } else {
      assert (w + rest)[0] == w[0] && (w + rest)[1..] == w[1..] + rest;
      assert w[0] in w;
      WordAt(w[1..], rest);
    }
  }

  lemma {:induction false} DigitsAt(w: string, rest: string)
    requires Digits(w)
    requires rest == "" || !IsDigit(rest[0])
    ensures DigitLength(w + rest) == |w|
  {
    if w == "" {
      assert w + rest == rest;
    } else {
      assert (w + rest)[0] == w[0] && (w + rest)[1..] == w[1..] + rest;
      assert w[0] in w;
      DigitsAt(w[1..], rest);
    }
  }

  /** Escaping is undone by reading, and the string ends at its own quote. */
  lemma {:induction false} StringReadBack(text: string, rest: string)
    ensures ReadString(Escape(text) + "\"" + rest) == Some((text, rest))
    decreases |text|
  {
    if text == "" {
      Cut("\"", rest);
      assert Escape(text) + "\"" + rest == "\"" + rest;
    } else {
      var more := Escape(text[1..]) + "\"" + rest;
      StringReadBack(text[1..], rest);
      CharReadBack(text[0], more, text[1..], rest);
      assert Escape(text) + "\"" + rest == EscapeChar(text[0]) + more;
      assert [text[0]] + text[1..] == text;
    }
  }

  lemma CharReadBack(c: char, more: string, text: string, rest: string)
    requires ReadString(more) == Some((text, rest))
    ensures ReadString(EscapeChar(c) + more) == Some(([c] + text, rest))
  {
    var e := EscapeChar(c);
    var s := e + more;
    Cut(e, more);
    if |e| == 2 {
      assert s[0] == '\\' && s[1] == e[1] && Unescape(e[1]) == Some(c);
      assert ReadString(s[2..]) == Some((text, rest));
    } else {
      assert s[0] == c && ReadString(s[1..]) == Some((text, rest));
    }
  }

  /** Escaping leaves no raw line break, so indentation never enters a string. */
  lemma {:induction false} EscapedHasNoBreak(text: string)
    ensures '\n' !in Escape(text) && '\r' !in Escape(text) && '\t' !in Escape(text)
  {
    if text != "" {
      EscapedHasNoBreak(text[1..]);
    }
  }

  // ----- numbers -----

  lemma StartsHere(s: string)
    requires s != "" && !IsSpace(s[0])
    ensures SkipSpace(s) == s
    ensures IsDigit(s[0]) ==> ReadUnary(s) == ReadNumeral(s)
    ensures IsIdentStart(s[0]) ==> ReadUnary(s) == ReadWord(s)
  {
  }

  /** What may come after a numeral. */
  predicate EndsNumeral(rest: string) {
    rest == "" || !(IsIdentChar(rest[0]) || rest[0] == '.')
  }

  lemma WholeReadBack(whole: string, rest: string)
    requires whole != "" && Digits(whole) && EndsNumeral(rest)
    ensures (whole + rest)[0] == whole[0] && IsDigit(whole[0])
    ensures ReadNumeral(whole + rest) == Some((Numeral(whole, ""), rest))
  {
    assert whole[0] in whole;
    DigitsAt(whole, rest);
    assert (whole + rest)[|whole|..] == rest && (whole + rest)[..|whole|] == whole;
  }

  lemma FractionReadBack(whole: string, fraction: string, rest: string)
    requires whole != "" && Digits(whole) && Digits(fraction) && EndsNumeral(rest)
    ensures var s := whole + ("." + (fraction + rest));
      s[0] == whole[0] && IsDigit(whole[0]) && ReadNumeral(s) == Some((Numeral(whole, fraction), rest))
  {
    var end := fraction + rest;
    var after := "." + end;
    assert whole[0] in whole;
    DigitsAt(whole, after);
    DigitsAt(fraction, rest);
    Cut(whole, after);
    Cut(".", end);
    Cut(fraction, rest);
    NumeralIs(whole + after, whole, after, end, fraction, rest);
  }

  lemma NumeralIs(s: string, whole: string, after: string, end: string, fraction: string, rest: string)
    requires s != "" && IsDigit(s[0]) && DigitLength(s) == |whole| && s[..|whole|] == whole && s[|whole|..] == after
    requires after == "." + end && DigitLength(end) == |fraction| && end[..|fraction|] == fraction
      && end[|fraction|..] == rest
    requires EndsNumeral(rest)
    ensures ReadNumeral(s) == Some((Numeral(whole, fraction), rest))
  {
    assert after[1..] == end && after[0] == '.';
    assert after[1 + |fraction|..] == rest && after[1..1 + |fraction|] == fraction;
  }

  lemma NumeralReadBack(whole: string, fraction: string, rest: string)
    requires whole != "" && Digits(whole) && Digits(fraction) && EndsNumeral(rest)
    ensures var s := DecimalText(whole, fraction) + rest;
      s != "" && IsDigit(s[0]) && ReadNumeral(s) == Some((Numeral(whole, fraction), rest))
  {
    DecimalSplit(whole, fraction, rest);
    if fraction == "" { WholeReadBack(whole, rest); } else { FractionReadBack(whole, fraction, rest); }
  }

  lemma DecimalSplit(whole: string, fraction: string, rest: string)
    ensures DecimalText(whole, fraction) + rest == whole + (if fraction == "" then rest else "." + (fraction + rest))
  {
    if fraction != "" {
      Joined(".", fraction, rest);
      Joined(whole, "." + fraction, rest);
    }
  }

  lemma MinusReadBack(s: string, x: Syntax, rest: string)
    requires s != "" && s[0] != '-' && ReadUnary(s) == Some((x, rest))
    ensures ReadUnary("-" + s) == Some((Negated(x), rest))
  {
    var t := "-" + s;
    assert t[0] == '-' && t[1..] == s && t[1] == s[0];
    assert SkipSpace(t) == t;
  }

  lemma Cut(a: string, b: string)
    ensures (a + b)[..|a|] == a && (a + b)[|a|..] == b
    ensures a != "" ==> (a + b)[0] == a[0]
  {
  }

  lemma WordIs(s: string, table: string, after: string, field: string, end: string)
    requires s != "" && IsNameStart(s[0]) && table != "nil" && table != "true" && table != "false"
    requires !IsReserved(table) && !IsReserved(field)
    requires WordLength(s) == |table| && s[..|table|] == table && s[|table|..] == after
    requires |after| > 1 && after[0] == '.' && IsNameStart(after[1])
    requires WordLength(after[1..]) == |field| && after[1..1 + |field|] == field && after[1 + |field|..] == end
    ensures ReadWord(s) == Some((Member(table, field), end))
  {
  }

  predicate IsName(w: string) {
    w != "" && IsNameStart(w[0]) && !IsReserved(w) && forall c :: c in w ==> IsNameChar(c)
  }

  lemma ValidIsName(w: string)
    ensures IsValidIdent(w) <==> IsName(w)
  {
    WordsAgree();
    if w != "" { assert w == [w[0]] + w[1..]; }
  }

  lemma MemberReadBack(table: string, field: string, rest: string)
    requires IsName(table) && IsName(field) && table != "nil" && table != "true" && table != "false"
    requires rest == "" || !IsNameChar(rest[0])
    ensures var s := table + ("." + (field + rest));
      s != "" && IsNameStart(s[0]) && ReadWord(s) == Some((Member(table, field), rest))
  {
    var end := field + rest;
    var after := "." + end;
    WordAt(table, after);
    WordAt(field, rest);
    Cut(table, after);
    Cut(field, rest);
    Cut(".", end);
    assert after[1..1 + |field|] == end[..|field|] && after[1 + |field|..] == end[|field|..];
    WordIs(table + after, table, after, field, rest);
  }

  lemma HugeSplit(rest: string)
    ensures "math.huge" + rest == "math" + ("." + ("huge" + rest))
  {
    assert "math.huge" == "math" + ".huge" && ".huge" == "." + "huge";
    Joined("math", ".huge", rest);
    Joined(".", "huge", rest);
  }

  lemma HugeMember(rest: string)
    requires rest == "" || !IsNameChar(rest[0])
    ensures var s := "math" + ("." + ("huge" + rest)); ReadWord(s) == Some((Member("math", "huge"), rest))
  {
    assert IsName("math") && IsName("huge");
    MemberReadBack("math", "huge", rest);
  }

  lemma HugeReadBack(rest: string)
    requires Follows(rest)
    ensures ReadUnary("math.huge" + rest) == Some((Member("math", "huge"), rest))
  {
    var s := "math" + ("." + ("huge" + rest));
    HugeMember(rest);
    HugeSplit(rest);
    assert s[0] == 'm';
    StartsHere(s);
  }

  lemma UnaryIsExpression(s: string, x: Syntax, rest: string)
    requires ReadUnary(s) == Some((x, rest)) && Follows(rest)
    ensures ReadExpression(s) == Some((x, rest))
  {
    assert SkipSpace(rest) == rest;
  }

  lemma DecimalReadBack(whole: string, fraction: string, rest: string)
    requires whole != "" && Digits(whole) && Digits(fraction) && EndsNumeral(rest)
    ensures ReadUnary(DecimalText(whole, fraction) + rest) == Some((Numeral(whole, fraction), rest))
  {
    NumeralReadBack(whole, fraction, rest);
    StartsHere(DecimalText(whole, fraction) + rest);
  }

  lemma NanReadBack(rest: string)
    requires Follows(rest)
    ensures ReadExpression("0/0" + rest) == Some((NumberSyntax(NotANumber), rest))
  {
    var half := "/0" + rest;
    assert DecimalText("0", "") == "0";
    assert "0/0" + rest == "0" + half;
    DecimalReadBack("0", "", half);
    DecimalReadBack("0", "", rest);
    assert half[0] == '/' && half[1..] == "0" + rest;
    StartsHere(half);
  }

  lemma InfiniteReadBack(negative: bool, rest: string)
    requires Follows(rest)
    ensures ReadUnary(NumberText(Infinite(negative)) + rest) == Some((NumberSyntax(Infinite(negative)), rest))
  {
    HugeReadBack(rest);
    if negative { NegativeHuge(rest); }
  }

  lemma NegativeHuge(rest: string)
    requires Follows(rest)
    ensures ReadUnary("-math.huge" + rest) == Some((Negated(Member("math", "huge")), rest))
  {
    var huge := "math.huge" + rest;
    HugeReadBack(rest);
    assert "-math.huge" == "-" + "math.huge";
    Joined("-", "math.huge", rest);
    assert huge[0] == 'm';
    MinusReadBack(huge, Member("math", "huge"), rest);
  }

  lemma SignedReadBack(negative: bool, whole: string, fraction: string, rest: string)
    requires whole != "" && Digits(whole) && Digits(fraction) && EndsNumeral(rest)
    ensures var n := Decimal(negative, whole, fraction);
      ReadUnary(NumberText(n) + rest) == Some((NumberSyntax(n), rest))
  {
    SignSplit(negative, whole, fraction, rest);
    DecimalReadBack(whole, fraction, rest);
    if negative { MinusReadBack(DecimalText(whole, fraction) + rest, Numeral(whole, fraction), rest); }
  }

  lemma SignSplit(negative: bool, whole: string, fraction: string, rest: string)
    requires whole != "" && Digits(whole)
    ensures var plain := DecimalText(whole, fraction) + rest;
      && plain != "" && plain[0] != '-'
      && NumberText(Decimal(negative, whole, fraction)) + rest == if negative then "-" + plain else plain
  {
    PlainStarts(whole, fraction, rest);
    Joined("-", DecimalText(whole, fraction), rest);
  }

  lemma PlainStarts(whole: string, fraction: string, rest: string)
    requires whole != "" && Digits(whole)
    ensures var plain := DecimalText(whole, fraction) + rest; plain != "" && plain[0] != '-'
  {
    assert whole[0] in whole;
    DecimalSplit(whole, fraction, rest);
    Cut(whole, if fraction == "" then rest else "." + (fraction + rest));
  }

  lemma NumberReadBack(n: Number, rest: string)
    requires IsNumber(n) && Follows(rest)
    ensures ReadExpression(NumberText(n) + rest) == Some((NumberSyntax(n), rest))
  {
    match n
    case NotANumber => NanReadBack(rest);
    case Infinite(negative) =>
      InfiniteReadBack(negative, rest);
      UnaryIsExpression(NumberText(n) + rest, NumberSyntax(n), rest);
    case Decimal(negative, whole, fraction) =>
      SignedReadBack(negative, whole, fraction, rest);
      UnaryIsExpression(NumberText(n) + rest, NumberSyntax(n), rest);
  }

  lemma WordsReadBack(e: Expression, n: nat, rest: string)
    requires (e.Nil? || e.Bool?) && Follows(rest)
    ensures ReadExpression(Text(e, n) + rest) == Some((SyntaxOf(e), rest))
  {
    var w := Text(e, n);
    var s := w + rest;
    assert w == "nil" || w == "true" || w == "false";
    WordAt(w, rest);
    assert s[0] == w[0] && s[..|w|] == w && s[|w|..] == rest;
    assert SkipSpace(s) == s;
    assert ReadUnary(s) == ReadWord(s);
    UnaryIsExpression(s, SyntaxOf(e), rest);
  }

  lemma TextReadBack(text: string, rest: string)
    requires Follows(rest)
    ensures ReadExpression(Quoted(text) + rest) == Some((Literal(text), rest))
  {
    var s := Quoted(text) + rest;
    assert s[0] == '"' && s[1..] == Escape(text) + "\"" + rest;
    StringReadBack(text, rest);
    assert SkipSpace(s) == s;
    UnaryIsExpression(s, Literal(text), rest);
  }

  // ----- expressions -----

  /** How a printed expression may start. */
  predicate Starts(c: char) {
    IsIdentStart(c) || IsDigit(c) || c == '"' || c == '{' || c == '-'
  }

  lemma TextStarts(e: Expression, n: nat)
    requires Printable(e)
    ensures Text(e, n) != "" && Starts(Text(e, n)[0])
  {
    if e.Num? { NumberKinds(e.number); }
  }

  /** The main induction. */
  lemma {:induction false} ExpressionReadBack(e: Expression, n: nat, rest: string)
    requires Printable(e) && Follows(rest)
    ensures ReadExpression(Text(e, n) + rest) == Some((SyntaxOf(e), rest))
    decreases e, 0
  {
    match e
    case Nil => WordsReadBack(e, n, rest);
    case Bool(_) => WordsReadBack(e, n, rest);
    case Num(number) => NumberReadBack(number, rest);
    case Str(text) => TextReadBack(text, rest);
    case Array(items) =>
      ItemsReadBack(items, n, rest);
      ArraySplit(items, n, rest);
      BracesReadBack(ItemsText(items, n) + ("}" + rest), ItemFields(items), rest);
    case Table(entries) =>
      EntriesReadBack(entries, n + 1, n, rest);
      TableSplit(entries, n, rest);
      BracesReadBack("\n" + (EntriesText(entries, n + 1) + (Tabs(n) + ("}" + rest))), EntryFields(entries), rest);
  }

  lemma ArraySplit(items: seq<Expression>, n: nat, rest: string)
    ensures Text(Array(items), n) + rest == "{" + (ItemsText(items, n) + ("}" + rest))
  {
  }

  lemma TableSplit(entries: seq<Entry>, n: nat, rest: string)
    ensures var inner := EntriesText(entries, n + 1) + (Tabs(n) + ("}" + rest));
      && Text(Table(entries), n) + rest == "{" + ("\n" + inner)
      && ReadFields("\n" + inner) == ReadFields(inner)
  {
    var inner := EntriesText(entries, n + 1) + (Tabs(n) + ("}" + rest));
    BraceSplit(EntriesText(entries, n + 1), Tabs(n), rest);
    SkipsSpaces("\n", inner);
    SameAfterSpace("\n" + inner, inner);
  }

  lemma BraceSplit(lines: string, tabs: string, rest: string)
    ensures ("{\n" + lines + tabs + "}") + rest == "{" + ("\n" + (lines + (tabs + ("}" + rest))))
  {
    assert "{\n" == "{" + "\n";
  }

  lemma BracesReadBack(s: string, fields: seq<Field>, rest: string)
    requires ReadFields(s) == Some((fields, rest)) && Follows(rest)
    ensures ReadExpression("{" + s) == Some((Constructor(fields), rest))
  {
    var t := "{" + s;
    assert t[0] == '{' && t[1..] == s;
    assert SkipSpace(t) == t;
    UnaryIsExpression(t, Constructor(fields), rest);
  }

  lemma SameAfterSpace(s: string, t: string)
    requires SkipSpace(s) == SkipSpace(t)
    ensures ReadFields(s) == ReadFields(t)
    ensures ReadExpression(s) == ReadExpression(t)
  {
    SameUnary(s, t);
  }

  lemma SameUnary(s: string, t: string)
    requires SkipSpace(s) == SkipSpace(t)
    ensures ReadUnary(s) == ReadUnary(t)
  {
  }

  /** A positional field: nothing that starts an expression is mistaken for a name. */
  lemma PositionalReadBack(e: Expression, n: nat, rest: string)
    requires Printable(e) && Follows(rest)
    requires ReadExpression(Text(e, n) + rest) == Some((SyntaxOf(e), rest))
    ensures ReadField(Text(e, n) + rest) == Some((Field(None, SyntaxOf(e)), rest))
  {
    var w := Text(e, n);
    var s := w + rest;
    TextStarts(e, n);
    assert s[0] == w[0];
    assert SkipSpace(s) == s;
    if IsIdentStart(s[0]) {
      NoNameHere(e, n, rest);
    }
  }

  lemma TextKinds(e: Expression, n: nat)
    requires Printable(e) && Text(e, n) != "" && IsIdentStart(Text(e, n)[0])
    ensures Text(e, n) ==
      if e.Num? then "math.huge" else if e.Nil? then "nil" else if e == Bool(true) then "true" else "false"
  {
    if e.Num? { NumberKinds(e.number); }
  }

  lemma NumberKinds(n: Number)
    requires IsNumber(n)
    ensures NumberText(n) != ""
      && (IsIdentStart(NumberText(n)[0]) || IsDigit(NumberText(n)[0]) || NumberText(n)[0] == '-')
    ensures IsIdentStart(NumberText(n)[0]) ==> n == Infinite(false)
  {
    if n.Decimal? {
      assert n.whole[0] in n.whole;
    }
  }

  lemma NoNameHere(e: Expression, n: nat, rest: string)
    requires Printable(e) && Follows(rest) && IsIdentStart(Text(e, n)[0])
    ensures var s := Text(e, n) + rest; ReadEquals(s[WordLength(s)..]).None?
  {
    TextKinds(e, n);
    if e.Num? {
      assert "math.huge" == "math" + ".huge";
      NothingNamed("math", ".huge", rest);
    } else {
      assert Text(e, n) + "" == Text(e, n);
      NothingNamed(Text(e, n), "", rest);
    }
  }

  lemma NothingNamed(w: string, member: string, rest: string)
    requires Follows(rest) && (forall c :: c in w ==> IsIdentChar(c)) && (member == "" || member[0] == '.')
    ensures var s := (w + member) + rest; ReadEquals(s[WordLength(s)..]).None?
  {
    var after := member + rest;
    WordAt(w, after);
    Joined(w, member, rest);
    Cut(w, after);
    assert SkipSpace(after) == after;
  }

  lemma {:induction false} ItemsReadBack(items: seq<Expression>, n: nat, rest: string)
    requires forall i :: 0 <= i < |items| ==> Printable(items[i])
    ensures ReadFields(ItemsText(items, n) + ("}" + rest)) == Some((ItemFields(items), rest))
    decreases items, 1
  {
    if items == [] {
      BraceEnds(rest);
      assert "" + ("}" + rest) == "}" + rest;
    } else {
      var more := ItemsText(items[1..], n) + ("}" + rest);
      var tail := if |items| > 1 then "," + (" " + more) else more;
      ItemsSplit(items, n, rest);
      ExpressionReadBack(items[0], n, tail);
      ItemsReadBack(items[1..], n, rest);
      if |items| > 1 {
        ItemThenRest(items[0], n, more, ItemFields(items[1..]), rest);
      } else {
        assert items[1..] == [] && ItemFields(items) == [Field(None, SyntaxOf(items[0]))];
        ItemAlone(items[0], n, rest);
      }
    }
  }

  lemma ItemThenRest(e: Expression, n: nat, more: string, fields: seq<Field>, rest: string)
    requires Printable(e) && ReadFields(more) == Some((fields, rest))
    requires ReadExpression(Text(e, n) + ("," + (" " + more))) == Some((SyntaxOf(e), "," + (" " + more)))
    ensures ReadFields(Text(e, n) + ("," + (" " + more))) == Some(([Field(None, SyntaxOf(e))] + fields, rest))
  {
    var tail := "," + (" " + more);
    PositionalReadBack(e, n, tail);
    TextStarts(e, n);
    Cut(Text(e, n), tail);
    SkipsSpaces(" ", more);
    SameAfterSpace(" " + more, more);
    EntryThenRest(Text(e, n) + tail, Field(None, SyntaxOf(e)), " " + more, fields, rest);
  }

  lemma ItemAlone(e: Expression, n: nat, rest: string)
    requires Printable(e)
    requires ReadExpression(Text(e, n) + ("}" + rest)) == Some((SyntaxOf(e), "}" + rest))
    ensures ReadFields(Text(e, n) + ("}" + rest)) == Some(([Field(None, SyntaxOf(e))], rest))
  {
    PositionalReadBack(e, n, "}" + rest);
    TextStarts(e, n);
    Cut(Text(e, n), "}" + rest);
    LastField(Text(e, n) + ("}" + rest), Field(None, SyntaxOf(e)), rest);
  }

  lemma BraceEnds(rest: string)
    ensures ReadFields("}" + rest) == Some(([], rest))
  {
    var s := "}" + rest;
    assert s[0] == '}' && s[1..] == rest;
    assert SkipSpace(s) == s;
  }

  lemma ItemsSplit(items: seq<Expression>, n: nat, rest: string)
    requires items != []
    ensures var more := ItemsText(items[1..], n) + ("}" + rest);
      var tail := if |items| > 1 then "," + (" " + more) else more;
      && ItemsText(items, n) + ("}" + rest) == Text(items[0], n) + tail
      && Follows(tail) && (|items| == 1 ==> tail == "}" + rest)
  {
    var last := "}" + rest;
    var more := ItemsText(items[1..], n) + last;
    assert ", " + more == "," + (" " + more);
    if |items| == 1 {
      assert more == last;
      assert ItemsText(items, n) == Text(items[0], n);
    } else {
      Joined(Text(items[0], n) + ", ", ItemsText(items[1..], n), last);
      Joined(Text(items[0], n), ", ", more);
    }
  }

  lemma LastField(t: string, field: Field, rest: string)
    requires t != "" && !IsSpace(t[0]) && t[0] != '}'
    requires ReadField(t) == Some((field, "}" + rest))
    ensures ReadFields(t) == Some(([field], rest))
  {
    var after := "}" + rest;
    assert after[0] == '}' && after[1..] == rest;
    assert SkipSpace(t) == t && SkipSpace(after) == after;
  }

  /** A key, up to and including the equals sign and the space after it. */
  lemma KeyReadBack(key: Expression, n: nat, tail: string, value: Syntax, rest: string)
    requires Printable(key) && !key.Nil?
    requires ReadExpression(Text(key, n) + ("] = " + tail)) == Some((SyntaxOf(key), "] = " + tail))
    requires ReadExpression(" " + tail) == Some((value, rest))
    ensures ReadField(KeyText(key, n) + (" = " + tail)) == Some((Field(Some(SyntaxOf(key)), value), rest))
  {
    EqualsReadBack(tail);
    Cut(KeyText(key, n), " = " + tail);
    if key.Str? && IsValidIdent(key.text) {
      assert key.text == [key.text[0]] + key.text[1..];
      WordAt(key.text, " = " + tail);
      NamedField(key.text + (" = " + tail), key.text, " = " + tail, " " + tail, value, rest);
    } else {
      TextStarts(key, n);
      BracketSplit(key, n, tail);
      KeyedField(Text(key, n) + ("] = " + tail), SyntaxOf(key), "] = " + tail, " = " + tail, " " + tail, value, rest);
    }
  }

  lemma EqualsReadBack(tail: string)
    ensures ReadEquals(" = " + tail) == Some(" " + tail)
  {
    var t := "= " + tail;
    assert " = " + tail == " " + t;
    SkipsSpaces(" ", t);
    assert t[0] == '=' && t[1] == ' ' && t[1..] == " " + tail;
  }

  lemma BracketSplit(key: Expression, n: nat, tail: string)
    requires Printable(key) && !(key.Str? && IsValidIdent(key.text))
    ensures var inner := Text(key, n) + ("] = " + tail);
      && KeyText(key, n) + (" = " + tail) == "[" + inner
      && inner != "" && inner[0] != '[' && inner[0] != '='
      && "] = " + tail == "]" + (" = " + tail)
  {
    TextStarts(key, n);
    assert "]" + (" = " + tail) == "] = " + tail;
  }

  lemma NamedField(s: string, name: string, after: string, tail: string, value: Syntax, rest: string)
    requires s != "" && IsIdentStart(s[0]) && !IsKeyword(name)
    requires WordLength(s) == |name| && s[..|name|] == name && s[|name|..] == after
    requires ReadEquals(after) == Some(tail) && ReadExpression(tail) == Some((value, rest))
    ensures ReadField(s) == Some((Field(Some(Literal(name)), value), rest))
  {
    assert SkipSpace(s) == s;
  }

  lemma KeyedField(inner: string, key: Syntax, close: string, after: string, tail: string, value: Syntax, rest: string)
    requires inner != "" && inner[0] != '[' && inner[0] != '='
    requires ReadExpression(inner) == Some((key, close)) && close == "]" + after
    requires ReadEquals(after) == Some(tail) && ReadExpression(tail) == Some((value, rest))
    ensures ReadField("[" + inner) == Some((Field(Some(key), value), rest))
  {
    var s := "[" + inner;
    Cut("[", inner);
    assert s[1] == inner[0];
    assert SkipSpace(s) == s;
    Cut("]", after);
    assert SkipSpace(close) == close;
  }

  /** One printed entry, without its indentation. */
  lemma {:induction false} EntryReadBack(entry: Entry, n: nat, after: string)
    requires Printable(entry.key) && !entry.key.Nil? && Printable(entry.value)
    ensures ReadField(KeyText(entry.key, n) + (" = " + (Text(entry.value, n) + ("," + after)))) ==
      Some((EntryField(entry), "," + after))
    decreases entry, 2
  {
    var tail := Text(entry.value, n) + ("," + after);
    ExpressionReadBack(entry.key, n, "] = " + tail);
    ExpressionReadBack(entry.value, n, "," + after);
    SkipsSpaces(" ", tail);
    SameAfterSpace(" " + tail, tail);
    KeyReadBack(entry.key, n, tail, SyntaxOf(entry.value), "," + after);
  }

  lemma KeyStarts(key: Expression, n: nat)
    requires Printable(key)
    ensures KeyText(key, n) != "" && (KeyText(key, n)[0] == '[' || IsIdentStart(KeyText(key, n)[0]))
  {
  }

  lemma EntrySplit(entry: Entry, n: nat, more: string)
    ensures EntryText(entry, n) + more
      == Tabs(n) + (KeyText(entry.key, n) + (" = " + (Text(entry.value, n) + ("," + ("\n" + more)))))
  {
    assert ",\n" + more == "," + ("\n" + more);
  }

  lemma {:induction false} EntriesReadBack(entries: seq<Entry>, n: nat, m: nat, rest: string)
    requires forall i ::
      0 <= i < |entries| ==> !entries[i].key.Nil? && Printable(entries[i].key) && Printable(entries[i].value)
    ensures ReadFields(EntriesText(entries, n) + (Tabs(m) + ("}" + rest))) == Some((EntryFields(entries), rest))
    decreases entries, 1
  {
    var close := Tabs(m) + ("}" + rest);
    var s := EntriesText(entries, n) + close;
    if entries == [] {
      assert s == close;
      SkipsSpaces(Tabs(m), "}" + rest);
      SameAfterSpace(close, "}" + rest);
      BraceEnds(rest);
    } else {
      var entry, more := entries[0], EntriesText(entries[1..], n) + close;
      EntryReadBack(entry, n, "\n" + more);
      EntriesReadBack(entries[1..], n, m, rest);
      assert EntriesText(entries, n) == EntryText(entry, n) + EntriesText(entries[1..], n);
      Joined(EntryText(entry, n), EntriesText(entries[1..], n), close);
      EntryFirst(entry, n, more, EntryFields(entries[1..]), rest);
    }
  }

  lemma EntryFirst(entry: Entry, n: nat, more: string, fields: seq<Field>, rest: string)
    requires Printable(entry.key)
    requires var t := KeyText(entry.key, n) + (" = " + (Text(entry.value, n) + ("," + ("\n" + more))));
      ReadField(t) == Some((EntryField(entry), "," + ("\n" + more)))
    requires ReadFields(more) == Some((fields, rest))
    ensures ReadFields(EntryText(entry, n) + more) == Some(([EntryField(entry)] + fields, rest))
  {
    var t := KeyText(entry.key, n) + (" = " + (Text(entry.value, n) + ("," + ("\n" + more))));
    EntrySplit(entry, n, more);
    SkipsSpaces(Tabs(n), t);
    SameAfterSpace(Tabs(n) + t, t);
    SkipsSpaces("\n", more);
    SameAfterSpace("\n" + more, more);
    KeyStarts(entry.key, n);
    Cut(KeyText(entry.key, n), " = " + (Text(entry.value, n) + ("," + ("\n" + more))));
    EntryThenRest(t, EntryField(entry), "\n" + more, fields, rest);
  }

  lemma EntryThenRest(t: string, field: Field, more: string, fields: seq<Field>, rest: string)
    requires t != "" && !IsSpace(t[0]) && t[0] != '}'
    requires ReadField(t) == Some((field, "," + more)) && ReadFields(more) == Some((fields, rest))
    ensures ReadFields(t) == Some(([field] + fields, rest))
  {
    var after := "," + more;
    assert after[0] == ',' && after[1..] == more;
    assert SkipSpace(t) == t && SkipSpace(after) == after;
  }

  // ----- meanings -----

  lemma {:induction false} SyntaxMeans(e: Expression)
    requires Printable(e)
    ensures Meaning(SyntaxOf(e)) == Some(Normal(e))
    decreases e, 0
  {
    match e
    case Array(items) =>
      ItemsMean(items);
      if items != [] { assert ItemFields(items)[0].key.None?; }
    case Table(entries) =>
      EntriesMean(entries);
      if entries != [] { assert EntryFields(entries)[0].key.Some?; }
    case _ =>
  }

  lemma {:induction false} ItemsMean(items: seq<Expression>)
    requires forall i :: 0 <= i < |items| ==> Printable(items[i])
    ensures ItemsMeaning(ItemFields(items)) == Some(NormalItems(items))
    decreases items, 0
  {
    if items != [] {
      SyntaxMeans(items[0]);
      ItemsMean(items[1..]);
      assert ItemFields(items)[1..] == ItemFields(items[1..]);
    }
  }

  lemma {:induction false} EntriesMean(entries: seq<Entry>)
    requires forall i ::
      0 <= i < |entries| ==> !entries[i].key.Nil? && Printable(entries[i].key) && Printable(entries[i].value)
    ensures EntriesMeaning(EntryFields(entries)) == Some(NormalEntries(entries))
    decreases entries, 0
  {
    if entries != [] {
      EntryMeans(entries[0]);
      EntriesMean(entries[1..]);
      assert EntryFields(entries)[1..] == EntryFields(entries[1..]);
    }
  }

  lemma {:induction false} EntryMeans(entry: Entry)
    requires Printable(entry.key) && Printable(entry.value)
    ensures KeyMeaning(EntryField(entry)) == Some(Normal(entry.key))
    ensures ValueMeaning(EntryField(entry)) == Some(Normal(entry.value))
    decreases entry, 1
  {
    SyntaxMeans(entry.key);
    SyntaxMeans(entry.value);
  }

  /** The round trip: reading the printed statement gives the expression back, with
      empty arrays and empty tables identified. */
  lemma StatementReadBack(e: Expression)
    requires Printable(e)
    ensures ReadValue(StatementText(e)) == Some(Normal(e))
  {
    var t := " " + Text(e, 0);
    assert "return " == "return" + " ";
    Joined("return", " ", Text(e, 0));
    assert Text(e, 0) + "" == Text(e, 0);
    ExpressionReadBack(e, 0, "");
    SkipsSpaces(" ", Text(e, 0));
    SameAfterSpace(t, Text(e, 0));
    ReturnReads(t, ReadExpression(t).value.0);
    SyntaxMeans(e);
  }

  lemma ReturnReads(t: string, x: Syntax)
    requires t != "" && t[0] == ' ' && ReadExpression(t) == Some((x, ""))
    ensures ReadStatement("return" + t) == Some(x)
  {
    var s := "return" + t;
    WordAt("return", t);
    assert s[0] == 'r' && s[..6] == "return" && s[6..] == t;
    assert SkipSpace(s) == s;
  }

  /** So two expressions print the same only if they are the same up to empty
      arrays. */
  lemma PrintingIsInjective(e: Expression, f: Expression)
    requires Printable(e) && Printable(f) && StatementText(e) == StatementText(f)
    ensures Normal(e) == Normal(f)
  {
    StatementReadBack(e);
    StatementReadBack(f);
  }

  // ----- what normal form leaves alone -----

  predicate NoEmptyArray(e: Expression)
    decreases e
  {
    match e
    case Array(items) => items != [] && forall i :: 0 <= i < |items| ==> NoEmptyArray(items[i])
    case Table(entries) =>
      forall i :: 0 <= i < |entries| ==> NoEmptyArray(entries[i].key) && NoEmptyArray(entries[i].value)
    case _ => true
  }

  lemma {:induction false} NormalKeeps(e: Expression)
    requires NoEmptyArray(e)
    ensures Normal(e) == e
    decreases e, 1
  {
    match e
    case Array(items) => ItemsKept(items);
    case Table(entries) => EntriesKept(entries);
    case _ =>
  }

  lemma {:induction false} ItemsKept(items: seq<Expression>)
    requires forall i :: 0 <= i < |items| ==> NoEmptyArray(items[i])
    ensures NormalItems(items) == items
    decreases items, 0
  {
    if items != [] {
      NormalKeeps(items[0]);
      ItemsKept(items[1..]);
    }
  }

  lemma {:induction false} EntriesKept(entries: seq<Entry>)
    requires forall i :: 0 <= i < |entries| ==> NoEmptyArray(entries[i].key) && NoEmptyArray(entries[i].value)
    ensures NormalEntries(entries) == entries
    decreases entries, 0
  {
    if entries != [] {
      EntryKept(entries[0]);
      EntriesKept(entries[1..]);
    }
  }

  lemma {:induction false} EntryKept(entry: Entry)
    requires NoEmptyArray(entry.key) && NoEmptyArray(entry.value)
    ensures NormalEntry(entry) == entry
    decreases entry, 2
  {
    NormalKeeps(entry.key);
    NormalKeeps(entry.value);
  }

  /** An expression without empty arrays is read back as it was. */
  lemma ReadBackExactly(e: Expression)
    requires Printable(e) && NoEmptyArray(e)
    ensures ReadValue(StatementText(e)) == Some(e)
  {
    StatementReadBack(e);
    NormalKeeps(e);
  }

  // ----- layout -----

  function Row(entry: Entry, n: nat): (r: string) {
    KeyText(entry.key, n) + " = " + Text(entry.value, n) + ","
  }

  /** Each entry on a line of its own, after so many tabs. */
  function Rows(entries: seq<Entry>, n: nat): (r: string) {
    if entries == [] then "" else "\n" + seq(n, _ => '\t') + Row(entries[0], n) + Rows(entries[1..], n)
  }

  lemma {:induction false} EntriesInRows(entries: seq<Entry>, n: nat)
    ensures "\n" + EntriesText(entries, n) == Rows(entries, n) + "\n"
  {
    if entries != [] {
      EntriesInRows(entries[1..], n);
      OneRow(Tabs(n), KeyText(entries[0].key, n), Text(entries[0].value, n), EntriesText(entries[1..], n),
        Rows(entries[1..], n));
      assert Tabs(n) == seq(n, _ => '\t');
    }
  }

  lemma OneRow(tabs: string, key: string, value: string, rest: string, rows: string)
    requires "\n" + rest == rows + "\n"
    ensures "\n" + ((tabs + key + " = " + value + ",\n") + rest)
      == ("\n" + tabs + (key + " = " + value + ",") + rows) + "\n"
  {
    var row := key + " = " + value + ",";
    assert ",\n" == "," + "\n";
    assert tabs + key + " = " + value + ",\n" == tabs + row + "\n";
    assert "\n" + ((tabs + row + "\n") + rest) == "\n" + tabs + row + ("\n" + rest);
    assert ("\n" + tabs + row + rows) + "\n" == "\n" + tabs + row + (rows + "\n");
  }

  /** A table is laid out with one line for each entry, one tab deeper than the braces. */
  lemma TableLayout(entries: seq<Entry>, n: nat)
    ensures Text(Table(entries), n) == "{" + Rows(entries, n + 1) + "\n" + seq(n, _ => '\t') + "}"
  {
    EntriesInRows(entries, n + 1);
    InBraces(EntriesText(entries, n + 1), Rows(entries, n + 1), Tabs(n));
    assert Tabs(n) == seq(n, _ => '\t');
  }

  lemma InBraces(text: string, rows: string, tabs: string)
    requires "\n" + text == rows + "\n"
    ensures "{\n" + text + tabs + "}" == "{" + rows + "\n" + tabs + "}"
  {
    assert "{\n" == "{" + "\n";
    assert "{\n" + text + tabs + "}" == "{" + ("\n" + text) + tabs + "}";
    assert "{" + (rows + "\n") + tabs + "}" == "{" + rows + "\n" + tabs + "}";
  }

  /** The items of an array stand on one line, with commas between them. */
  lemma ArrayLayout(items: seq<Expression>, n: nat)
    ensures Text(Array([]), n) == "{}"
    ensures items != [] ==> Text(Array(items), n) == "{" + Text(items[0], n) + CommaItems(items[1..], n) + "}"
  {
    if items != [] { ItemsWithCommas(items, n); }
    assert "{" + "" + "}" == "{}";
  }

  function CommaItems(items: seq<Expression>, n: nat): (r: string) {
    if items == [] then "" else ", " + Text(items[0], n) + CommaItems(items[1..], n)
  }

  lemma {:induction false} ItemsWithCommas(items: seq<Expression>, n: nat)
    requires items != []
    ensures ItemsText(items, n) == Text(items[0], n) + CommaItems(items[1..], n)
  {
    if |items| > 1 {
      ItemsWithCommas(items[1..], n);
      Joined(Text(items[0], n), ", ", Text(items[1], n) + CommaItems(items[1..][1..], n));
      Joined(", ", Text(items[1], n), CommaItems(items[1..][1..], n));
    }
  }

  /** Exactly the names of the language stand bare as keys. */
  lemma BareKeys(key: Expression, n: nat)
    ensures KeyText(key, n) ==
      if key.Str? && IsName(key.text) then key.text else "[" + Text(key, n) + "]"
  {
    if key.Str? { ValidIsName(key.text); }
  }
}
