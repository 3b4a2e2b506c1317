/** Printing statements, with their clauses in any order, and parsing them back: one statement, and
    whole scripts. The theorems hold for any keyword table. */
module SqlRoundTrip {
  import opened AsciiText
  import opened Results
  import opened SqlSyntax

  /** The tokenizer's view of words: which keyword an unquoted word is, and some spelling of each
      keyword. The parser looks at neither again. */
  datatype Lexicon = Lexicon(keywordOf: string -> Keyword, spelling: Keyword -> string)

  // ---------------------------------------------------------------- printing

  function PutKeyword(lex: Lexicon, k: Keyword, rest: Tokens): Tokens {
    Then(Word(lex.spelling(k), None, k), rest)
  }

  function PrintIdent(lex: Lexicon, i: Ident): Token {
    if i.quote == Some('\'') then SingleQuoted(i.value)
    else Word(i.value, i.quote, if i.quote.None? then lex.keywordOf(i.value) else NoKeyword)
  }

  /** Everything is printed in front of the tokens that follow it. */
  function PrintName(lex: Lexicon, name: ObjectName, rest: Tokens): (ts: Tokens)
    requires name != []
    ensures ts.Then?
  {
    Then(PrintIdent(lex, name[0]), if |name| == 1 then rest else Then(Period, PrintName(lex, name[1..], rest)))
  }

  function PrintValue(v: Value): Token {
    match v
    case SingleValue(text) => SingleQuoted(text)
    case DoubleValue(text) => DoubleQuoted(text)
    case EscapedValue(text) => Escaped(text)
    case NumberValue(digits, long) => Number(digits, long)
  }

  /** A word as the tokenizer gives it, keyword or not. */
  datatype BareWord = BareWord(text: string, quote: Option<char>, keyword: Keyword)

  /** An option as it may be written: its key as words with periods between them or as a string, its
      value as a word or as a string or number. */
  datatype KeySpelling =
    | Dotted(words: seq<BareWord>)
    | SingleKey(text: string)
    | DoubleKey(text: string)
    | EscapedKey(text: string)

  datatype ValueSpelling = WordValue(word: BareWord) | Literal(value: Value)

  datatype Spelling = Spelling(key: KeySpelling, value: ValueSpelling)

  function Texts(words: seq<BareWord>): seq<string> {
    if words == [] then [] else [words[0].text] + Texts(words[1..])
  }

  /** The key and the value it stands for. */
  function Meant(s: Spelling): (string, Value) {
    (if s.key.Dotted? then Join(Texts(s.key.words), ".") else s.key.text,
     if s.value.WordValue? then SingleValue(s.value.word.text) else s.value.value)
  }

  function AllMeant(ss: seq<Spelling>): Options {
    if ss == [] then [] else [Meant(ss[0])] + AllMeant(ss[1..])
  }

  predicate Spellable(s: Spelling) {
    s.key.Dotted? ==> s.key.words != []
  }

  function PutWord(w: BareWord, rest: Tokens): Tokens {
    Then(Word(w.text, w.quote, w.keyword), rest)
  }

  function PrintWords(words: seq<BareWord>, rest: Tokens): (ts: Tokens)
    requires words != []
    ensures Head(ts).Word?
  {
    PutWord(words[0], if |words| == 1 then rest else Then(Period, PrintWords(words[1..], rest)))
  }

  function PrintKey(key: KeySpelling, rest: Tokens): (ts: Tokens)
    requires key.Dotted? ==> key.words != []
    ensures Head(ts) != RParen
  {
    match key
    case Dotted(words) => PrintWords(words, rest)
    case SingleKey(text) => Then(SingleQuoted(text), rest)
    case DoubleKey(text) => Then(DoubleQuoted(text), rest)
    case EscapedKey(text) => Then(Escaped(text), rest)
  }

  function PrintSpelledValue(v: ValueSpelling, rest: Tokens): (ts: Tokens)
    ensures Head(ts) != Period
  {
    match v
    case WordValue(word) => PutWord(word, rest)
    case Literal(value) => Then(PrintValue(value), rest)
  }

  /** The pairs and the closing parenthesis, with or without a comma before it. */
  function PrintPairs(ss: seq<Spelling>, trailingComma: bool, rest: Tokens): (ts: Tokens)
    requires ss != [] && forall s <- ss :: Spellable(s)
    ensures Head(ts) != RParen
  {
    assert Spellable(ss[0]);
    PrintKey(ss[0].key, PrintSpelledValue(ss[0].value,
      if |ss| > 1 then Then(Comma, PrintPairs(ss[1..], trailingComma, rest))
      else if trailingComma then Then(Comma, Then(RParen, rest))
      else Then(RParen, rest)))
  }

  /** Keys in quotes and values as literals: the spelling the statements below are printed with. */
  function Quoted(options: Options): (ss: seq<Spelling>)
    ensures |ss| == |options| && forall s <- ss :: Spellable(s)
  {
    if options == [] then []
    else [Spelling(SingleKey(options[0].0), Literal(options[0].1))] + Quoted(options[1..])
  }

  function PrintOptions(options: Options, trailingComma: bool, rest: Tokens): Tokens
    requires options != []
  {
    Then(LParen, PrintPairs(Quoted(options), trailingComma, rest))
  }

  /** What can be written down at all: there is no empty name and no empty option list. */
  predicate Printable(c: Clause) {
    match c
    case UsingShare(share) => share != []
    case UsingFormat(format) => format != []
    case WithOptions(options) => options != []
    case DbProperties(properties) => properties != []
    case _ => true
  }

  predicate Fits(form: Form, c: Clause) {
    match form
    case CatalogForm => c.UsingShare? || c.ManagedLocation? || c.DefaultCollation? || c.Comment? || c.WithOptions?
    case SchemaForm => c.ManagedLocation? || c.Comment? || c.DbProperties?
    case TableForm => c.UsingFormat?
    case VacuumForm => c.DryRun? || c.FullMode? || c.RetainHours?
  }

  function PrintClause(lex: Lexicon, c: Clause, rest: Tokens): (ts: Tokens)
    requires Printable(c)
    ensures forall form :: Fits(form, c) ==> Opens(form, Head(ts))
  {
    match c
    case UsingShare(share) => PutKeyword(lex, USING, PutKeyword(lex, SHARE, PrintName(lex, share, rest)))
    case UsingFormat(format) => PutKeyword(lex, USING, PrintName(lex, format, rest))
    case ManagedLocation(url) => PutKeyword(lex, MANAGED, PutKeyword(lex, LOCATION, Then(SingleQuoted(url), rest)))
    case DefaultCollation(collation) => PutKeyword(lex, DEFAULT,
      PutKeyword(lex, COLLATION, Then(SingleQuoted(collation), rest)))
    case Comment(comment) => PutKeyword(lex, COMMENT, Then(SingleQuoted(comment), rest))
    case WithOptions(options) => PutKeyword(lex, OPTIONS, PrintOptions(options, false, rest))
    case DbProperties(properties) =>
      PutKeyword(lex, WITH, Then(Word("DBPROPERTIES", None, NoKeyword), PrintOptions(properties, false, rest)))
    case DryRun => PutKeyword(lex, DRY, PutKeyword(lex, RUN, rest))
    case FullMode => PutKeyword(lex, FULL, rest)
    case RetainHours(hours) => PutKeyword(lex, RETAIN, Then(Number(hours, false), PutKeyword(lex, HOURS, rest)))
  }

  function PrintClauses(lex: Lexicon, cs: seq<Clause>, rest: Tokens): Tokens
    requires forall c <- cs :: Printable(c)
  {
    if cs == [] then rest else PrintClause(lex, cs[0], PrintClauses(lex, cs[1..], rest))
  }

  /** A statement as somebody wrote it: its clauses in some order, some perhaps twice. */
  datatype Written =
    | Clausal(form: Form, name: ObjectName, ifNotExists: bool, columns: nat, clauses: seq<Clause>)
    | Dropped(form: Form, name: ObjectName, ifExists: bool, cascade: bool)

  predicate Writable(w: Written) {
    && w.name != []
    && match w
       case Clausal(form, _, ifNotExists, _, clauses) =>
         && (form == VacuumForm ==> !ifNotExists)
         && forall c <- clauses :: Fits(form, c) && Printable(c)
       case Dropped(form, _, _, _) => form == CatalogForm || form == SchemaForm
  }

  function KindOf(form: Form): Keyword {
    match form
    case CatalogForm => CATALOG
    case SchemaForm => SCHEMA
    case TableForm => TABLE
    case VacuumForm => VACUUM
  }

  /** The columns of a table, and the clauses. */
  function PrintRest(lex: Lexicon, w: Written, rest: Tokens): Tokens
    requires Writable(w) && w.Clausal?
  {
    var clauses := PrintClauses(lex, w.clauses, rest);
    if w.form == TableForm then Then(Columns(w.columns), clauses) else clauses
  }

  function PrintClausal(lex: Lexicon, w: Written, rest: Tokens): Tokens
    requires Writable(w) && w.Clausal?
  {
    var name := PrintName(lex, w.name, PrintRest(lex, w, rest));
    if w.ifNotExists then PutKeyword(lex, IF, PutKeyword(lex, NOT, PutKeyword(lex, EXISTS, name))) else name
  }

  function PrintDropped(lex: Lexicon, w: Written, rest: Tokens): Tokens
    requires Writable(w) && w.Dropped?
  {
    var name := PrintName(lex, w.name, if w.cascade then PutKeyword(lex, CASCADE, rest) else rest);
    if w.ifExists then PutKeyword(lex, IF, PutKeyword(lex, EXISTS, name)) else name
  }

  function Print(lex: Lexicon, w: Written, rest: Tokens): (ts: Tokens)
    requires Writable(w)
    ensures ts.Then? && Boundary(Head(ts)) && !EndsStatement(Head(ts))
  {
    if w.Dropped? then PutKeyword(lex, DROP, PutKeyword(lex, KindOf(w.form), PrintDropped(lex, w, rest)))
    else if w.form == VacuumForm then PutKeyword(lex, VACUUM, PrintClausal(lex, w, rest))
    else PutKeyword(lex, CREATE, PutKeyword(lex, KindOf(w.form), PrintClausal(lex, w, rest)))
  }

  function Semicolons(n: nat, rest: Tokens): (ts: Tokens)
    ensures Head(ts) == if n > 0 then SemiColon else Head(rest)
  {
    if n == 0 then rest else Then(SemiColon, Semicolons(n - 1, rest))
  }

  /** Where a written statement can stop: the end, a semicolon, or the opening of another one. */
  predicate Boundary(t: Token) {
    EndsStatement(t) || IsKeyword(t, CREATE) || IsKeyword(t, DROP) || IsKeyword(t, VACUUM)
  }

  // ---------------------------------------------------------------- what was written means

  function ApplyAll(host: Host, b: Clauses, cs: seq<Clause>): Option<Clauses>
    decreases |cs|
  {
    if cs == [] then Some(b)
    else
      var b' :- Apply(host, b, cs[0]);
      ApplyAll(host, b', cs[1..])
  }

  function Meaning(host: Host, w: Written): Option<Statement> {
    if !NameFits(w.form, w.name) then None
    else
      match w
      case Clausal(form, name, ifNotExists, columns, clauses) =>
        var b :- ApplyAll(host, NO_CLAUSES, clauses);
        Build(form, name, ifNotExists, if form == TableForm then columns else 0, b)
      case Dropped(form, name, ifExists, cascade) =>
        Some(if form == CatalogForm then DropCatalog(name, ifExists, cascade) else DropSchema(name, ifExists, cascade))
  }

  // ---------------------------------------------------------------- parsing what was printed

  lemma {:induction false} NameParses(lex: Lexicon, name: ObjectName, rest: Tokens)
    requires name != [] && Head(rest) != Period
    ensures ParseName(PrintName(lex, name, rest)) == Some((name, rest))
  {
    if |name| > 1 {
      NameParses(lex, name[1..], rest);
      assert name == [name[0]] + name[1..];
    } else {
      assert name == [name[0]];
    }
  }

  /** Words with periods between them parse to their join. */
  lemma {:induction false} DottedParses(words: seq<BareWord>, rest: Tokens)
    requires words != [] && Head(rest) != Period
    ensures ParseDotted(PrintWords(words, rest)) == Some((Join(Texts(words), "."), rest))
    decreases |words|
  {
    if |words| > 1 { DottedParses(words[1..], rest); }
  }

  lemma KeyParses(s: Spelling, rest: Tokens)
    requires Spellable(s) && Head(rest) != Period
    ensures ParseOptionKey(PrintKey(s.key, rest)) == Some((Meant(s).0, rest))
  {
    if s.key.Dotted? { DottedParses(s.key.words, rest); }
  }

  lemma ValueParses(s: Spelling, rest: Tokens)
    ensures ParseOptionValue(PrintSpelledValue(s.value, rest)) == Some((Meant(s).1, rest))
  {
  }

  /** One pair, and what its separator leads to. */
  lemma PairParses(s: Spelling, next: Tokens)
    requires Spellable(s)
    ensures ParseOptionList(PrintKey(s.key, PrintSpelledValue(s.value, next)))
      == var comma := Head(next) == Comma;
         var rest := if comma then Tail(next) else next;
         if Head(rest) == RParen then Some(([Meant(s)], Tail(rest)))
         else if comma && ParseOptionList(rest).Some? then
           Some(([Meant(s)] + ParseOptionList(rest).value.0, ParseOptionList(rest).value.1))
         else None
  {
    var value := PrintSpelledValue(s.value, next);
    KeyParses(s, value);
    ValueParses(s, next);
  }

  lemma {:induction false} PairsParse(ss: seq<Spelling>, trailingComma: bool, rest: Tokens)
    requires ss != [] && forall s <- ss :: Spellable(s)
    ensures ParseOptionList(PrintPairs(ss, trailingComma, rest)) == Some((AllMeant(ss), rest))
    decreases |ss|
  {
    if |ss| > 1 {
      var more := PrintPairs(ss[1..], trailingComma, rest);
      PairsParse(ss[1..], trailingComma, rest);
      PairParses(ss[0], Then(Comma, more));
    } else {
      PairParses(ss[0], if trailingComma then Then(Comma, Then(RParen, rest)) else Then(RParen, rest));
      assert AllMeant(ss) == [Meant(ss[0])];
    }
  }

  /** However options are spelled, with or without a trailing comma, they parse to what they mean. */
  lemma SpelledOptionsParse(ss: seq<Spelling>, trailingComma: bool, rest: Tokens)
    requires ss != [] && forall s <- ss :: Spellable(s)
    ensures ParseOptions(Then(LParen, PrintPairs(ss, trailingComma, rest))) == Some((AllMeant(ss), rest))
  {
    PairsParse(ss, trailingComma, rest);
  }

  lemma {:induction false} QuotedMeans(options: Options)
    ensures AllMeant(Quoted(options)) == options
  {
    if options != [] {
      QuotedMeans(options[1..]);
      assert Quoted(options)[1..] == Quoted(options[1..]);
      assert options == [options[0]] + options[1..];
    }
  }

  /** Non-empty options come back with or without a trailing comma. */
  lemma OptionsParse(options: Options, trailingComma: bool, rest: Tokens)
    requires options != []
    ensures ParseOptions(PrintOptions(options, trailingComma, rest)) == Some((options, rest))
  {
    SpelledOptionsParse(Quoted(options), trailingComma, rest);
    QuotedMeans(options);
  }

  /** `()` is refused wherever options are expected. */
  lemma EmptyOptionsRefused(rest: Tokens)
    ensures ParseOptions(Then(LParen, Then(RParen, rest))) == None
  {
  }

  lemma ClauseParses(lex: Lexicon, form: Form, c: Clause, rest: Tokens)
    requires Fits(form, c) && Printable(c) && Head(rest) != Period
    ensures ParseClause(form, PrintClause(lex, c, rest)) == Some((c, rest))
  {
    if c.UsingShare? || c.UsingFormat? { UsingParses(lex, form, c, rest); }
    else if c.WithOptions? || c.DbProperties? { OptionsClauseParses(lex, form, c, rest); }
    else { PlainClauseParses(lex, form, c, rest); }
  }

  lemma UsingParses(lex: Lexicon, form: Form, c: Clause, rest: Tokens)
    requires (c.UsingShare? || c.UsingFormat?) && Fits(form, c) && Printable(c) && Head(rest) != Period
    ensures ParseClause(form, PrintClause(lex, c, rest)) == Some((c, rest))
  {
    NameParses(lex, if c.UsingShare? then c.share else c.format, rest);
  }

  lemma OptionsClauseParses(lex: Lexicon, form: Form, c: Clause, rest: Tokens)
    requires (c.WithOptions? || c.DbProperties?) && Fits(form, c) && Printable(c)
    ensures ParseClause(form, PrintClause(lex, c, rest)) == Some((c, rest))
  {
    if c.WithOptions? { OptionsParse(c.options, false, rest); } else { PropertiesParse(lex, c.properties, rest); }
  }

  lemma PropertiesParse(lex: Lexicon, properties: Options, rest: Tokens)
    requires properties != []
    ensures ParseClause(SchemaForm, PrintClause(lex, DbProperties(properties), rest))
      == Some((DbProperties(properties), rest))
  {
    OptionsParse(properties, false, rest);
    var word := "DBPROPERTIES";
    assert EqualsIgnoreCase(word, word);
  }

  lemma PlainClauseParses(lex: Lexicon, form: Form, c: Clause, rest: Tokens)
    requires !c.WithOptions? && !c.DbProperties? && !c.UsingShare? && !c.UsingFormat? && Fits(form, c)
    ensures ParseClause(form, PrintClause(lex, c, rest)) == Some((c, rest))
  {
  }

  /** How the clause loop ends: at the statement's end, which it takes, or not at all. */
  function Ended<T>(value: Option<T>, tail: Tokens): Parsed<T> {
    var v :- value;
    if EndsStatement(Head(tail)) then Some((v, Tail(tail))) else None
  }

  lemma {:induction false} ClausesParse(host: Host, lex: Lexicon, form: Form, b: Clauses, cs: seq<Clause>, tail: Tokens)
    requires forall c <- cs :: Fits(form, c) && Printable(c)
    requires Boundary(Head(tail))
    ensures ParseClauses(host, form, b, PrintClauses(lex, cs, tail)) == Ended(ApplyAll(host, b, cs), tail)
    decreases |cs|
  {
    if cs != [] {
      var c, more := cs[0], cs[1..];
      var rest, b' := PrintClauses(lex, more, tail), Apply(host, b, c);
      assert Fits(form, c) && Printable(c);
      AfterName(lex, form, more, tail);
      OneClauseParses(host, lex, form, b, c, rest);
      if b'.Some? { ClausesParse(host, lex, form, b'.value, more, tail); }
    }
  }

  lemma OneClauseParses(host: Host, lex: Lexicon, form: Form, b: Clauses, c: Clause, rest: Tokens)
    requires Fits(form, c) && Printable(c) && Head(rest) != Period
    ensures ParseClauses(host, form, b, PrintClause(lex, c, rest))
      == if Apply(host, b, c).Some? then ParseClauses(host, form, Apply(host, b, c).value, rest) else None
  {
    ClauseParses(lex, form, c, rest);
  }

  lemma AfterName(lex: Lexicon, form: Form, cs: seq<Clause>, tail: Tokens)
    requires (forall c <- cs :: Fits(form, c) && Printable(c)) && Boundary(Head(tail))
    ensures var t := Head(PrintClauses(lex, cs, tail)); t != Period && !IsKeyword(t, NOT)
  {
  }

  lemma RestParses(host: Host, lex: Lexicon, w: Written, tail: Tokens)
    requires Writable(w) && w.Clausal? && Boundary(Head(tail)) && NameFits(w.form, w.name)
    ensures ParseRest(host, w.form, w.name, w.ifNotExists, PrintRest(lex, w, tail)) == Ended(Meaning(host, w), tail)
  {
    ClausesParse(host, lex, w.form, NO_CLAUSES, w.clauses, tail);
  }

  lemma IfNotExistsParses(lex: Lexicon, w: Written, tail: Tokens)
    requires Writable(w) && w.Clausal? && !Leads(NOT, PrintRest(lex, w, tail))
    ensures ParseIfNotExists(w.form, PrintClausal(lex, w, tail))
      == (w.ifNotExists, PrintName(lex, w.name, PrintRest(lex, w, tail)))
  {
  }

  lemma ClausalParses(host: Host, lex: Lexicon, w: Written, tail: Tokens)
    requires Writable(w) && w.Clausal? && Boundary(Head(tail))
    ensures ParseClausal(host, w.form, PrintClausal(lex, w, tail)) == Ended(Meaning(host, w), tail)
  {
    var afterName := PrintRest(lex, w, tail);
    AfterName(lex, w.form, w.clauses, tail);
    NameParses(lex, w.name, afterName);
    IfNotExistsParses(lex, w, tail);
    if NameFits(w.form, w.name) { RestParses(host, lex, w, tail); }
  }

  lemma DroppedParses(host: Host, lex: Lexicon, w: Written, tail: Tokens)
    requires Writable(w) && w.Dropped? && Boundary(Head(tail))
    ensures ParseDropped(w.form, PrintDropped(lex, w, tail))
      == if Meaning(host, w).Some? then Some((Meaning(host, w).value, tail)) else None
  {
    var afterName := if w.cascade then PutKeyword(lex, CASCADE, tail) else tail;
    CascadeParses(lex, w.cascade, tail, afterName);
    NameParses(lex, w.name, afterName);
    IfExistsParses(lex, w, afterName);
  }

  lemma CascadeParses(lex: Lexicon, cascade: bool, tail: Tokens, afterName: Tokens)
    requires Boundary(Head(tail)) && afterName == if cascade then PutKeyword(lex, CASCADE, tail) else tail
    ensures Leads(CASCADE, afterName) == cascade && (cascade ==> Tail(afterName) == tail)
    ensures Head(afterName) != Period && !Leads(EXISTS, afterName)
  {
  }

  lemma IfExistsParses(lex: Lexicon, w: Written, afterName: Tokens)
    requires Writable(w) && w.Dropped? && !Leads(EXISTS, afterName)
    ensures var name := PrintName(lex, w.name, afterName);
      ParseIfExists(if w.ifExists then PutKeyword(lex, IF, PutKeyword(lex, EXISTS, name)) else name)
        == (w.ifExists, name)
  {
  }

  lemma CreateParses(host: Host, lex: Lexicon, form: Form, body: Tokens)
    requires form != VacuumForm
    ensures ParseStatement(host, PutKeyword(lex, CREATE, PutKeyword(lex, KindOf(form), body)))
      == ParseClausal(host, form, body)
  {
    KindParses(lex, form, body);
    var create, kind := Word(lex.spelling(CREATE), None, CREATE), PutKeyword(lex, KindOf(form), body);
    assert ParseCreate(host, create, kind) == ParseClausal(host, form, body);
  }

  lemma KindParses(lex: Lexicon, form: Form, body: Tokens)
    requires form != VacuumForm
    ensures WhatIsCreated(PutKeyword(lex, KindOf(form), body)) == Ours(form)
  {
  }

  lemma DropParses(host: Host, lex: Lexicon, form: Form, body: Tokens)
    requires form == CatalogForm || form == SchemaForm
    ensures ParseStatement(host, PutKeyword(lex, DROP, PutKeyword(lex, KindOf(form), body))) == ParseDropped(form, body)
  {
  }

  /** What parsing a written statement must give, before these tokens: statements with clauses take
      their own semicolon, `DROP` leaves it. */
  function Outcome(host: Host, w: Written, tail: Tokens): Parsed<Statement> {
    if w.Clausal? then Ended(Meaning(host, w), tail)
    else
      var statement :- Meaning(host, w);
      Some((statement, tail))
  }

  lemma StatementParses(host: Host, lex: Lexicon, w: Written, tail: Tokens)
    requires Writable(w) && Boundary(Head(tail))
    ensures ParseStatement(host, Print(lex, w, tail)) == Outcome(host, w, tail)
  {
    if w.Dropped? {
      DropParses(host, lex, w.form, PrintDropped(lex, w, tail));
      DroppedParses(host, lex, w, tail);
    } else {
      if w.form != VacuumForm { CreateParses(host, lex, w.form, PrintClausal(lex, w, tail)); }
      ClausalParses(host, lex, w, tail);
    }
  }

  // ---------------------------------------------------------------- scripts

  /** Statements, each with the number of semicolons written after it. */
  type Script = seq<(Written, nat)>

  predicate WritableScript(script: Script) {
    forall x <- script :: Writable(x.0)
  }

  function PrintScript(lex: Lexicon, script: Script): (ts: Tokens)
    requires WritableScript(script)
    ensures Boundary(Head(ts)) && Head(ts) != SemiColon && (Head(ts) == EOF <==> script == [])
  {
    if script == [] then End
    else Print(lex, script[0].0, Semicolons(script[0].1, PrintScript(lex, script[1..])))
  }

  /** How many semicolons must stand between this statement and a following one: a statement with
      clauses takes one itself, and the statement loop wants another. */
  function Needed(w: Written): nat {
    if w.Clausal? then 2 else 1
  }

  predicate Separated(script: Script) {
    forall i :: 0 <= i < |script| - 1 ==> script[i].1 >= Needed(script[i].0)
  }

  function Meanings(host: Host, script: Script): Option<seq<Statement>> {
    if script == [] then Some([])
    else
      var first :- Meaning(host, script[0].0);
      var rest :- Meanings(host, script[1..]);
      Some([first] + rest)
  }

  lemma {:induction false} SkipsAll(n: nat, ts: Tokens)
    requires Head(ts) != SemiColon
    ensures SkipSemicolons(Semicolons(n, ts)) == ts
  {
    if n > 0 { SkipsAll(n - 1, ts); }
  }

  lemma SeparatedSplits(script: Script)
    requires script != []
    ensures Separated(script) <==>
      Separated(script[1..]) && (|script| > 1 ==> script[0].1 >= Needed(script[0].0))
  {
  }

  /** One round of the statement loop. */
  lemma RoundParses(host: Host, lex: Lexicon, w: Written, n: nat, due: bool, tail: Tokens)
    requires Writable(w) && Boundary(Head(tail)) && !(due && n == 0)
    ensures var o := Outcome(host, w, tail);
      ParseStatements(host, Semicolons(n, Print(lex, w, tail)), due)
      == if o.None? || ParseStatements(host, o.value.1, true).None? then None
         else Some([o.value.0] + ParseStatements(host, o.value.1, true).value)
  {
    var ts := Print(lex, w, tail);
    SkipsAll(n, ts);
    StatementParses(host, lex, w, tail);
  }

  /** The semicolons that are left after a statement: one fewer when it took its own. */
  function Left(w: Written, k: nat): nat {
    if w.Clausal? && k > 0 then k - 1 else k
  }

  lemma OutcomeInScript(host: Host, lex: Lexicon, w: Written, k: nat, rest: Script)
    requires WritableScript(rest)
    ensures var next := PrintScript(lex, rest);
      Outcome(host, w, Semicolons(k, next))
      == if Meaning(host, w).None? || (w.Clausal? && k == 0 && rest != []) then None
         else Some((Meaning(host, w).value, Semicolons(Left(w, k), next)))
  {
  }

  /** What a script gives with `n` semicolons still to skip before it, and a delimiter due or not. */
  function ScriptOutcome(host: Host, script: Script, n: nat, due: bool): Option<seq<Statement>> {
    if script == [] then Some([])
    else if (due && n == 0) || !Separated(script) then None
    else Meanings(host, script)
  }

  lemma ScriptOutcomeSplits(host: Host, script: Script, n: nat, due: bool)
    requires script != [] && !(due && n == 0)
    ensures var w, k, rest := script[0].0, script[0].1, script[1..];
      var later := ScriptOutcome(host, rest, Left(w, k), true);
      ScriptOutcome(host, script, n, due)
      == if Meaning(host, w).None? || (w.Clausal? && k == 0 && rest != []) || later.None? then None
         else Some([Meaning(host, w).value] + later.value)
  {
    SeparatedSplits(script);
    var rest := script[1..];
    if |script| == 1 {
      assert rest == [] && Separated(rest) && Meanings(host, rest) == Some([]);
    } else {
      assert rest != [];
    }
  }

  lemma {:induction false} ScriptFrom(host: Host, lex: Lexicon, script: Script, n: nat, due: bool)
    requires WritableScript(script)
    ensures ParseStatements(host, Semicolons(n, PrintScript(lex, script)), due) == ScriptOutcome(host, script, n, due)
    decreases |script|
  {
    if script == [] || (due && n == 0) {
      SkipsAll(n, PrintScript(lex, script));
    } else {
      var w, k, rest := script[0].0, script[0].1, script[1..];
      var tail := Semicolons(k, PrintScript(lex, rest));
      RoundParses(host, lex, w, n, due, tail);
      OutcomeInScript(host, lex, w, k, rest);
      ScriptOutcomeSplits(host, script, n, due);
      ScriptFrom(host, lex, rest, Left(w, k), true);
    }
  }

  /** A whole script parses to what its statements mean exactly when every statement means something
      and enough semicolons stand between them; otherwise it is refused as a whole. */
  lemma ScriptParsesIff(host: Host, lex: Lexicon, script: Script)
    requires WritableScript(script)
    ensures ParseStatements(host, PrintScript(lex, script), false)
      == if Separated(script) then Meanings(host, script) else None
  {
    ScriptFrom(host, lex, script, 0, false);
  }

  /** So the usual script `VACUUM a; VACUUM b`, with one semicolon between its statements, is refused,
      whatever the names. */
  lemma OneSemicolonIsNotEnough(host: Host, lex: Lexicon, a: Ident, b: Ident)
    ensures ParseStatements(host, PutKeyword(lex, VACUUM, Then(PrintIdent(lex, a), Then(SemiColon,
      PutKeyword(lex, VACUUM, Then(PrintIdent(lex, b), End))))), false) == None
  {
  }
}
