/** Lua values as the printer gets them, the text it prints, and a reader for that
    part of Lua (src/lua_ast.rs; sections 2.1 and 2.5.7 of the Lua 5.1 Reference
    Manual). */
module LuaSyntax {
  import opened Basics

  /** A finite float is given by its decimal text: sign, digits and fraction. */
  datatype Number = NotANumber | Infinite(negative: bool) | Decimal(negative: bool, whole: string, fraction: string)

  datatype Expression =
    | Nil
    | Bool(truth: bool)
    | Num(number: Number)
    | Str(text: string)
    | Table(entries: seq<Entry>)
    | Array(items: seq<Expression>)

  datatype Entry = Entry(key: Expression, value: Expression)

  // ----- characters and words -----

  predicate IsDigit(c: char) { '0' <= c <= '9' }

  predicate IsIdentStart(c: char) { 'a' <= c <= 'z' || 'A' <= c <= 'Z' || c == '_' }

  predicate IsIdentChar(c: char) { IsIdentStart(c) || IsDigit(c) }

  predicate IsSpace(c: char) { c == ' ' || c == '\t' || c == '\n' || c == '\r' }

  predicate IsKeyword(s: string) {
    s in {"and", "break", "do", "else", "elseif", "end", "false", "for", "function", "if", "in", "local", "nil",
          "not", "or", "repeat", "return", "then", "true", "until", "while"}
  }

  /** `is_valid_ident` */
  predicate IsValidIdent(s: string) {
    !IsKeyword(s) && s != "" && IsIdentStart(s[0]) && forall c :: c in s[1..] ==> IsIdentChar(c)
  }

  predicate Digits(s: string) {
    forall c :: c in s ==> IsDigit(c)
  }

  predicate IsNumber(n: Number) {
    n.Decimal? ==> n.whole != "" && Digits(n.whole) && Digits(n.fraction)
  }

  /** Numbers are decimal and no key is nil; a nil key makes the printer panic. */
  predicate Printable(e: Expression)
    decreases e
  {
    match e
    case Num(n) => IsNumber(n)
    case Table(entries) =>
      forall i ::
        0 <= i < |entries| ==> !entries[i].key.Nil? && Printable(entries[i].key) && Printable(entries[i].value)
    case Array(items) => forall i :: 0 <= i < |items| ==> Printable(items[i])
    case _ => true
  }

  // ----- the printed text -----

  function Tabs(n: nat): (r: string)
    ensures |r| == n && forall c :: c in r ==> c == '\t'
  {
    seq(n, _ => '\t')
  }

  function EscapeChar(c: char): (r: string) {
    match c
    case '"' => "\\\""
    case '\r' => "\\r"
    case '\n' => "\\n"
    case '\t' => "\\t"
    case '\\' => "\\\\"
    case _ => [c]
  }

  function Escape(s: string): (r: string) {
    if s == "" then "" else EscapeChar(s[0]) + Escape(s[1..])
  }

  function NumberText(n: Number): (r: string) {
    match n
    case NotANumber => "0/0"
    case Infinite(negative) => if negative then "-math.huge" else "math.huge"
    case Decimal(negative, whole, fraction) => (if negative then "-" else "") + DecimalText(whole, fraction)
  }

  function DecimalText(whole: string, fraction: string): (r: string) {
    whole + if fraction == "" then "" else "." + fraction
  }

  function Quoted(s: string): (r: string) {
    "\"" + Escape(s) + "\""
  }

  /** The text of an expression whose lines are indented by `n` tabs. */
  function Text(e: Expression, n: nat): (r: string)
    decreases e, 0
  {
    match e
    case Nil => "nil"
    case Bool(truth) => if truth then "true" else "false"
    case Num(number) => NumberText(number)
    case Str(text) => Quoted(text)
    case Array(items) => "{" + ItemsText(items, n) + "}"
    case Table(entries) => "{\n" + EntriesText(entries, n + 1) + Tabs(n) + "}"
  }

  function KeyText(e: Expression, n: nat): (r: string)
    decreases e, 1
  {
    if e.Str? && IsValidIdent(e.text) then e.text else "[" + Text(e, n) + "]"
  }

  function ItemsText(items: seq<Expression>, n: nat): (r: string)
    decreases items, 0
  {
    if items == [] then ""
    else Text(items[0], n) + (if |items| > 1 then ", " else "") + ItemsText(items[1..], n)
  }

  function EntriesText(entries: seq<Entry>, n: nat): (r: string)
    decreases entries, 0
  {
    if entries == [] then "" else EntryText(entries[0], n) + EntriesText(entries[1..], n)
  }

  function EntryText(entry: Entry, n: nat): (r: string)
    decreases entry, 2
  {
    Tabs(n) + KeyText(entry.key, n) + " = " + Text(entry.value, n) + ",\n"
  }

  lemma Joined(a: string, b: string, c: string)
    ensures (a + b) + c == a + (b + c)
  {
  }

  /** `Statement::Return` */
  function StatementText(e: Expression): (r: string) {
    "return " + Text(e, 0)
  }

  // ----- the syntax that is read -----

  datatype Syntax =
    | NilWord
    | BoolWord(truth: bool)
    | Numeral(whole: string, fraction: string)
    | Literal(text: string)
    | Member(table: string, field: string)
    | Negated(of: Syntax)
    | Divided(left: Syntax, right: Syntax)
    | Constructor(fields: seq<Field>)

  /** A field without a key is positional; `name = value` has the name as its key. */
  datatype Field = Field(key: Option<Syntax>, value: Syntax)

  /** The words that are no names (section 2.1 of the manual). */
  predicate IsReserved(s: string) {
    || s == "and" || s == "break" || s == "do" || s == "else" || s == "elseif" || s == "end" || s == "false"
    || s == "for" || s == "function" || s == "if" || s == "in" || s == "local" || s == "nil" || s == "not"
    || s == "or" || s == "repeat" || s == "return" || s == "then" || s == "true" || s == "until" || s == "while"
  }

  predicate IsNameStart(c: char) { c == '_' || 'A' <= c <= 'Z' || 'a' <= c <= 'z' }

  predicate IsNameChar(c: char) { IsNameStart(c) || c in "0123456789" }

  /** The words and characters the printer keeps apart are those of the language. */
  lemma WordsAgree()
    ensures forall s :: IsKeyword(s) <==> IsReserved(s)
    ensures forall c :: IsIdentStart(c) <==> IsNameStart(c)
    ensures forall c :: IsIdentChar(c) <==> IsNameChar(c)
  {
  }

  function SkipSpace(s: string): (r: string)
    ensures |r| <= |s|
    ensures r != "" ==> !IsSpace(r[0])
  {
    if s != "" && IsSpace(s[0]) then SkipSpace(s[1..]) else s
  }

  /** The length of the longest word at the start. */
  function WordLength(s: string): (n: nat)
    ensures n <= |s|
    ensures n == 0 <==> s == "" || !IsNameChar(s[0])
  {
    if s != "" && IsNameChar(s[0]) then 1 + WordLength(s[1..]) else 0
  }

  function DigitLength(s: string): (n: nat)
    ensures n <= |s|
    ensures n == 0 <==> s == "" || !IsDigit(s[0])
  {
    if s != "" && IsDigit(s[0]) then 1 + DigitLength(s[1..]) else 0
  }

  /** What an escape sequence stands for; decimal escapes are not read. */
  function Unescape(c: char): (r: Option<char>) {
    match c
    case 'n' => Some('\n')
    case 'r' => Some('\r')
    case 't' => Some('\t')
    case '"' => Some('"')
    case '\'' => Some('\'')
    case '\\' => Some('\\')
    case '\n' => Some('\n')
    case _ => None
  }

  /** The rest of a quoted string, after the opening quote. A raw line break ends the
      line and is an error. */
  function ReadString(s: string): (r: Option<(string, string)>)
    ensures r.Some? ==> |r.value.1| < |s|
    decreases |s|
  {
    if s == "" || s[0] == '\n' || s[0] == '\r' then None
    else if s[0] == '"' then Some(("", s[1..]))
    else if s[0] == '\\' then
      if |s| < 2 || Unescape(s[1]).None? then None
      else
        var rest := ReadString(s[2..]);
        if rest.None? then None else Some(([Unescape(s[1]).value] + rest.value.0, rest.value.1))
    else
      var rest := ReadString(s[1..]);
      if rest.None? then None else Some(([s[0]] + rest.value.0, rest.value.1))
  }

  /** A decimal numeral; a letter or a second point after it is an error. */
  function ReadNumeral(s: string): (r: Option<(Syntax, string)>)
    requires s != "" && IsDigit(s[0])
    ensures r.Some? ==> |r.value.1| < |s|
  {
    var n := DigitLength(s);
    var rest := s[n..];
    if rest != "" && rest[0] == '.' then
      var m := DigitLength(rest[1..]);
      var after := rest[1 + m..];
      if after != "" && (after[0] == '.' || IsNameChar(after[0])) then None
      else Some((Numeral(s[..n], rest[1..1 + m]), after))
    else if rest != "" && IsNameChar(rest[0]) then None
    else Some((Numeral(s[..n], ""), rest))
  }

  function ReadWord(s: string): (r: Option<(Syntax, string)>)
    requires s != "" && IsNameStart(s[0])
    ensures r.Some? ==> |r.value.1| < |s|
  {
    var n := WordLength(s);
    var word, rest := s[..n], s[n..];
    if word == "nil" then Some((NilWord, rest))
    else if word == "true" then Some((BoolWord(true), rest))
    else if word == "false" then Some((BoolWord(false), rest))
    else if IsReserved(word) then None
    else if |rest| > 1 && rest[0] == '.' && IsNameStart(rest[1]) then
      var m := WordLength(rest[1..]);
      if IsReserved(rest[1..1 + m]) then None else Some((Member(word, rest[1..1 + m]), rest[1 + m..]))
    else None
  }

  function ReadUnary(s0: string): (r: Option<(Syntax, string)>)
    ensures r.Some? ==> |r.value.1| < |s0|
    decreases |s0|, 0
  {
    var s := SkipSpace(s0);
    if s == "" then None
    else if s[0] == '"' then
      var text := ReadString(s[1..]);
      if text.None? then None else Some((Literal(text.value.0), text.value.1))
    else if s[0] == '{' then
      var fields := ReadFields(s[1..]);
      if fields.None? then None else Some((Constructor(fields.value.0), fields.value.1))
    else if s[0] == '-' then
      if |s| > 1 && s[1] == '-' then None
      else
        var of := ReadUnary(s[1..]);
        if of.None? then None else Some((Negated(of.value.0), of.value.1))
    else if IsDigit(s[0]) then ReadNumeral(s)
    else if IsNameStart(s[0]) then ReadWord(s)
    else None
  }

  function ReadExpression(s: string): (r: Option<(Syntax, string)>)
    ensures r.Some? ==> |r.value.1| < |s|
    decreases |s|, 1
  {
    var left := ReadUnary(s);
    if left.None? then None
    else
      var after := SkipSpace(left.value.1);
      if after != "" && after[0] == '/' then
        var right := ReadUnary(after[1..]);
        if right.None? then None else Some((Divided(left.value.0, right.value.0), right.value.1))
      else left
  }

  /** Expects `=` and not `==`, after any space. */
  function ReadEquals(s: string): (r: Option<string>)
    ensures r.Some? ==> |r.value| < |s|
  {
    var t := SkipSpace(s);
    if t != "" && t[0] == '=' && !(|t| > 1 && t[1] == '=') then Some(t[1..]) else None
  }

  function ReadField(s0: string): (r: Option<(Field, string)>)
    ensures r.Some? ==> |r.value.1| < |s0|
    decreases |s0|, 2
  {
    var s := SkipSpace(s0);
    if s == "" then None
    else if s[0] == '[' then
      if |s| > 1 && (s[1] == '[' || s[1] == '=') then None
      else
        var key := ReadExpression(s[1..]);
        if key.None? then None
        else
          var close := SkipSpace(key.value.1);
          if close == "" || close[0] != ']' then None
          else FinishField(key.value.0, close[1..], |s0|)
    else if IsNameStart(s[0]) && ReadEquals(s[WordLength(s)..]).Some? then
      if IsReserved(s[..WordLength(s)]) then None
      else FinishField(Literal(s[..WordLength(s)]), s[WordLength(s)..], |s0|)
    else
      var value := ReadExpression(s);
      if value.None? then None else Some((Field(None, value.value.0), value.value.1))
  }

  function FinishField(key: Syntax, s: string, size: nat): (r: Option<(Field, string)>)
    requires |s| < size
    ensures r.Some? ==> |r.value.1| < size
    decreases size, 1
  {
    var after := ReadEquals(s);
    if after.None? then None
    else
      var value := ReadExpression(after.value);
      if value.None? then None else Some((Field(Some(key), value.value.0), value.value.1))
  }

  /** The fields up to the closing brace, with separators between them and an
      optional one at the end. */
  function ReadFields(s0: string): (r: Option<(seq<Field>, string)>)
    ensures r.Some? ==> |r.value.1| < |s0|
    decreases |s0|, 3
  {
    var s := SkipSpace(s0);
    if s == "" then None
    else if s[0] == '}' then Some(([], s[1..]))
    else
      var first := ReadField(s);
      if first.None? then None
      else
        var after := SkipSpace(first.value.1);
        if after == "" then None
        else if after[0] == '}' then Some(([first.value.0], after[1..]))
        else if after[0] == ',' || after[0] == ';' then
          var rest := ReadFields(after[1..]);
          if rest.None? then None else Some(([first.value.0] + rest.value.0, rest.value.1))
        else None
  }

  /** A chunk that returns one expression. */
  function ReadStatement(s0: string): (r: Option<Syntax>) {
    var s := SkipSpace(s0);
    var n := WordLength(s);
    if s[..n] != "return" then None
    else
      var e := ReadExpression(s[n..]);
      if e.Some? && SkipSpace(e.value.1) == "" then Some(e.value.0) else None
  }

  // ----- from syntax to values -----

  function Meaning(x: Syntax): (r: Option<Expression>)
    decreases x
  {
    match x
    case NilWord => Some(Nil)
    case BoolWord(truth) => Some(Bool(truth))
    case Numeral(whole, fraction) => Some(Num(Decimal(false, whole, fraction)))
    case Literal(text) => Some(Str(text))
    case Member(table, field) => if table == "math" && field == "huge" then Some(Num(Infinite(false))) else None
    case Negated(Numeral(whole, fraction)) => Some(Num(Decimal(true, whole, fraction)))
    case Negated(Member(table, field)) => if table == "math" && field == "huge" then Some(Num(Infinite(true))) else None
    case Negated(_) => None
    case Divided(left, right) => if left == right == Numeral("0", "") then Some(Num(NotANumber)) else None
    case Constructor(fields) =>
      if fields != [] && fields[0].key.None? then
        var items := ItemsMeaning(fields);
        if items.None? then None else Some(Array(items.value))
      else
        var entries := EntriesMeaning(fields);
        if entries.None? then None else Some(Table(entries.value))
  }

  function ValueMeaning(field: Field): (r: Option<Expression>)
    decreases field
  {
    Meaning(field.value)
  }

  function KeyMeaning(field: Field): (r: Option<Expression>)
    decreases field
  {
    if field.key.None? then None else Meaning(field.key.value)
  }

  function ItemsMeaning(fields: seq<Field>): (r: Option<seq<Expression>>)
    decreases fields
  {
    if fields == [] then Some([])
    else
      var first, rest := ValueMeaning(fields[0]), ItemsMeaning(fields[1..]);
      if fields[0].key.Some? || first.None? || rest.None? then None else Some([first.value] + rest.value)
  }

  function EntriesMeaning(fields: seq<Field>): (r: Option<seq<Entry>>)
    decreases fields
  {
    if fields == [] then Some([])
    else
      var key, first, rest := KeyMeaning(fields[0]), ValueMeaning(fields[0]), EntriesMeaning(fields[1..]);
      if key.None? || first.None? || rest.None? then None else Some([Entry(key.value, first.value)] + rest.value)
  }

  /** The value a text stands for. */
  function ReadValue(s: string): (r: Option<Expression>) {
    var x := ReadStatement(s);
    if x.None? then None else Meaning(x.value)
  }

  /** An expression with every empty array written as an empty table, which Lua does
      not tell apart. */
  function Normal(e: Expression): (r: Expression)
    decreases e
  {
    match e
    case Array(items) => if items == [] then Table([]) else Array(NormalItems(items))
    case Table(entries) => Table(NormalEntries(entries))
    case _ => e
  }

  function NormalItems(items: seq<Expression>): (r: seq<Expression>)
    ensures |r| == |items|
    decreases items
  {
    if items == [] then [] else [Normal(items[0])] + NormalItems(items[1..])
  }

  function NormalEntry(entry: Entry): (r: Entry)
    decreases entry
  {
    Entry(Normal(entry.key), Normal(entry.value))
  }

  function NormalEntries(entries: seq<Entry>): (r: seq<Entry>)
    ensures |r| == |entries|
    decreases entries
  {
    if entries == [] then []
    else [NormalEntry(entries[0])] + NormalEntries(entries[1..])
  }
}
