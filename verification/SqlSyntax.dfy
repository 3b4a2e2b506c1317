/** The SQL front end on token sequences: tokens, statements, and what each parsing routine takes off
    the front of the remaining tokens. A failed parse is None: error messages are not modelled. */
module SqlSyntax {
  import opened AsciiText
  import opened Results

  datatype Keyword =
    | CREATE | DROP | VACUUM | CATALOG | SCHEMA | TABLE | CONNECTION | FOREIGN | LOCATION | SHARE
    | IF | NOT | EXISTS | CASCADE | USING | MANAGED | DEFAULT | COLLATION | COMMENT | OPTIONS | WITH
    | DRY | RUN | FULL | RETAIN | HOURS | OtherKeyword | NoKeyword

  /** `EOF` is what reading past the last token gives. A parenthesised list of column definitions is
      one opaque token, `Columns`. */
  datatype Token =
    | Word(value: string, quote: Option<char>, keyword: Keyword)
    | SingleQuoted(text: string)
    | DoubleQuoted(text: string)
    | Escaped(text: string)
    | Unicode(text: string)
    | Number(digits: string, long: bool)
    | Columns(columns: nat)
    | LParen | RParen | Comma | Period | SemiColon | EOF
    | OtherToken(id: nat)

  datatype Ident = Ident(value: string, quote: Option<char>)

  type ObjectName = seq<Ident>

  datatype Value =
    | SingleValue(text: string)
    | DoubleValue(text: string)
    | EscapedValue(text: string)
    | NumberValue(digits: string, long: bool)

  type Options = seq<(string, Value)>

  datatype Statement =
    | CreateCatalog(name: ObjectName, ifNotExists: bool, usingShare: Option<ObjectName>,
                    managedLocation: Option<string>, defaultCollation: Option<string>, comment: Option<string>,
                    options: Option<Options>)
    | CreateSchema(name: ObjectName, ifNotExists: bool, managedLocation: Option<string>, comment: Option<string>,
                   properties: Option<Options>)
    | CreateManagedTable(name: ObjectName, columns: nat, ifNotExists: bool)
    | VacuumTable(name: ObjectName, full: bool, retentionHours: Option<string>, dryRun: bool)
    | DropCatalog(name: ObjectName, ifExists: bool, cascade: bool)
    | DropSchema(name: ObjectName, ifExists: bool, cascade: bool)
    | Delegated(tokens: seq<Token>)

  /** What the parser takes from outside: which strings are URLs, and how many tokens the SQL parser
      underneath takes for a statement it is handed, after the first one; None when it rejects it. */
  datatype Host = Host(validUrl: string -> bool, native: Tokens -> Option<nat>, nativeCreate: Tokens -> Option<nat>)

  type Parsed<T> = Option<(T, Tokens)>

  // ---------------------------------------------------------------- tokens, keywords, names

  /** The tokens still to be read. */
  datatype Tokens = End | Then(head: Token, tail: Tokens)

  /** Some tokens have been taken off the front of `ts`; or perhaps none. */
  ghost predicate Shorter(rest: Tokens, ts: Tokens) {
    rest < ts
  }

  ghost predicate Within(rest: Tokens, ts: Tokens) {
    rest == ts || rest < ts
  }

  function Head(ts: Tokens): Token {
    if ts.End? then EOF else ts.head
  }

  function Tail(ts: Tokens): (r: Tokens)
    ensures Within(r, ts) && (ts.Then? ==> Shorter(r, ts))
  {
    if ts.End? then End else ts.tail
  }

  function Drop(ts: Tokens, n: nat): (r: Tokens)
    ensures Within(r, ts)
    ensures n > 0 && ts.Then? ==> Shorter(r, ts)
  {
    if n == 0 || ts.End? then ts else Drop(ts.tail, n - 1)
  }

  function Take(ts: Tokens, n: nat): seq<Token> {
    if n == 0 || ts.End? then [] else [ts.head] + Take(ts.tail, n - 1)
  }

  predicate IsKeyword(t: Token, k: Keyword) {
    t.Word? && t.keyword == k
  }

  predicate Leads(k: Keyword, ts: Tokens) {
    IsKeyword(Head(ts), k)
  }

  predicate LeadsTwo(k: Keyword, l: Keyword, ts: Tokens) {
    Leads(k, ts) && Leads(l, Tail(ts))
  }

  predicate LeadsThree(k: Keyword, l: Keyword, m: Keyword, ts: Tokens) {
    Leads(k, ts) && LeadsTwo(l, m, Tail(ts))
  }

  /** `expect_keyword`. */
  function ParseKeyword(k: Keyword, ts: Tokens): (r: Option<Tokens>)
    ensures r.Some? ==> Shorter(r.value, ts)
  {
    if Leads(k, ts) then Some(Tail(ts)) else None
  }

  /** Any word, keyword or not, or a quoted string can name things. */
  function ParseIdent(ts: Tokens): Parsed<Ident> {
    match Head(ts)
    case Word(value, quote, _) => Some((Ident(value, quote), Tail(ts)))
    case SingleQuoted(text) => Some((Ident(text, Some('\'')), Tail(ts)))
    case DoubleQuoted(text) => Some((Ident(text, Some('"')), Tail(ts)))
    case _ => None
  }

  /** One or more identifiers, with periods between them. */
  function ParseName(ts: Tokens): (r: Parsed<ObjectName>)
    ensures r.Some? ==> r.value.0 != [] && Shorter(r.value.1, ts)
    decreases ts
  {
    var (ident, rest) :- ParseIdent(ts);
    if Head(rest) == Period then
      var (more, rest') :- ParseName(Tail(rest));
      Some(([ident] + more, rest'))
    else Some(([ident], rest))
  }

  function ParseString(ts: Tokens): (r: Parsed<string>)
    ensures r.Some? ==> Shorter(r.value.1, ts)
  {
    match Head(ts)
    case Word(value, _, keyword) => if keyword == NoKeyword then Some((value, Tail(ts))) else None
    case SingleQuoted(text) => Some((text, Tail(ts)))
    case DoubleQuoted(text) => Some((text, Tail(ts)))
    case Escaped(text) => Some((text, Tail(ts)))
    case Unicode(text) => Some((text, Tail(ts)))
    case _ => None
  }

  // ---------------------------------------------------------------- options

  /** Words joined by periods. */
  function ParseDotted(ts: Tokens): (r: Parsed<string>)
    ensures r.Some? ==> Shorter(r.value.1, ts)
    decreases ts
  {
    if !Head(ts).Word? then None
    else if Head(Tail(ts)) == Period then
      var (more, rest) :- ParseDotted(Tail(Tail(ts)));
      Some((Head(ts).value + "." + more, rest))
    else Some((Head(ts).value, Tail(ts)))
  }

  function ParseOptionKey(ts: Tokens): (r: Parsed<string>)
    ensures r.Some? ==> Shorter(r.value.1, ts)
  {
    match Head(ts)
    case Word(_, _, _) => ParseDotted(ts)
    case SingleQuoted(text) => Some((text, Tail(ts)))
    case DoubleQuoted(text) => Some((text, Tail(ts)))
    case Escaped(text) => Some((text, Tail(ts)))
    case _ => None
  }

  function ParseOptionValue(ts: Tokens): (r: Parsed<Value>)
    ensures r.Some? ==> Shorter(r.value.1, ts)
  {
    match Head(ts)
    case Word(value, _, _) => Some((SingleValue(value), Tail(ts)))
    case SingleQuoted(text) => Some((SingleValue(text), Tail(ts)))
    case DoubleQuoted(text) => Some((DoubleValue(text), Tail(ts)))
    case Escaped(text) => Some((EscapedValue(text), Tail(ts)))
    case Number(digits, long) => Some((NumberValue(digits, long), Tail(ts)))
    case _ => None
  }

  /** At least one pair; a comma between pairs, and possibly one before the closing parenthesis. */
  function ParseOptionList(ts: Tokens): (r: Parsed<Options>)
    ensures r.Some? ==> r.value.0 != [] && Shorter(r.value.1, ts)
    decreases ts
  {
    var (key, afterKey) :- ParseOptionKey(ts);
    var (value, afterValue) :- ParseOptionValue(afterKey);
    var comma := Head(afterValue) == Comma;
    var rest := if comma then Tail(afterValue) else afterValue;
    if Head(rest) == RParen then Some(([(key, value)], Tail(rest)))
    else if !comma then None
    else
      var (more, rest') :- ParseOptionList(rest);
      Some(([(key, value)] + more, rest'))
  }

  function ParseOptions(ts: Tokens): (r: Parsed<Options>)
    ensures r.Some? ==> r.value.0 != [] && Shorter(r.value.1, ts)
  {
    if Head(ts) == LParen then ParseOptionList(Tail(ts)) else None
  }

  // ---------------------------------------------------------------- clauses

  /** The four statements whose clauses come in any order. */
  datatype Form = CatalogForm | SchemaForm | TableForm | VacuumForm

  datatype Clause =
    | UsingShare(share: ObjectName)
    | UsingFormat(format: ObjectName)
    | ManagedLocation(url: string)
    | DefaultCollation(collation: string)
    | Comment(comment: string)
    | WithOptions(options: Options)
    | DbProperties(properties: Options)
    | DryRun
    | FullMode
    | RetainHours(hours: string)

  /** The builder the clause loops fill. */
  datatype Clauses = Clauses(
    usingShare: Option<ObjectName>, managedLocation: Option<string>, defaultCollation: Option<string>,
    comment: Option<string>, options: Option<Options>, properties: Option<Options>,
    full: bool, retentionHours: Option<string>, dryRun: bool)

  const NO_CLAUSES := Clauses(None, None, None, None, None, None, false, None, false)

  /** Whether a token opens a clause of this kind of statement; `LOCATION` opens one that is refused. */
  predicate Opens(form: Form, t: Token) {
    t.Word? &&
    match form
    case CatalogForm => t.keyword in {USING, MANAGED, COMMENT, DEFAULT, OPTIONS}
    case SchemaForm => t.keyword in {MANAGED, COMMENT, WITH}
    case TableForm => t.keyword in {USING, LOCATION}
    case VacuumForm => t.keyword in {DRY, FULL, RETAIN}
  }

  function ParseClause(form: Form, ts: Tokens): (r: Parsed<Clause>)
    requires Opens(form, Head(ts))
    ensures r.Some? ==> Shorter(r.value.1, ts)
  {
    var rest := Tail(ts);
    match Head(ts).keyword
    case USING =>
      if form == TableForm then
        var (format, rest') :- ParseName(rest);
        Some((UsingFormat(format), rest'))
      else
        var afterShare :- ParseKeyword(SHARE, rest);
        var (share, rest') :- ParseName(afterShare);
        Some((UsingShare(share), rest'))
    case MANAGED =>
      var afterLocation :- ParseKeyword(LOCATION, rest);
      var (url, rest') :- ParseString(afterLocation);
      Some((ManagedLocation(url), rest'))
    case DEFAULT =>
      var afterCollation :- ParseKeyword(COLLATION, rest);
      var (collation, rest') :- ParseString(afterCollation);
      Some((DefaultCollation(collation), rest'))
    case COMMENT =>
      var (comment, rest') :- ParseString(rest);
      Some((Comment(comment), rest'))
    case OPTIONS =>
      var (options, rest') :- ParseOptions(rest);
      Some((WithOptions(options), rest'))
    case WITH =>
      if Head(rest).Word? && EqualsIgnoreCase(Head(rest).value, "DBPROPERTIES") then
        var (properties, rest') :- ParseOptions(Tail(rest));
        Some((DbProperties(properties), rest'))
      else None
    case DRY =>
      var rest' :- ParseKeyword(RUN, rest);
      Some((DryRun, rest'))
    case FULL => Some((FullMode, rest))
    case RETAIN =>
      if Head(rest).Number? then
        var rest' :- ParseKeyword(HOURS, Tail(rest));
        Some((RetainHours(Head(rest).digits), rest'))
      else None
    case _ => None
  }

  /** What a clause itself must satisfy. */
  predicate Sound(host: Host, c: Clause) {
    match c
    case UsingShare(share) => |share| == 2
    case ManagedLocation(url) => host.validUrl(url)
    case _ => true
  }

  /** `FULL`, `RETAIN` and a table's `USING` may be repeated; every other clause may not. */
  predicate Once(c: Clause) {
    !c.FullMode? && !c.RetainHours? && !c.UsingFormat?
  }

  predicate IsSet(b: Clauses, c: Clause) {
    match c
    case UsingShare(_) => b.usingShare.Some?
    case UsingFormat(_) => false
    case ManagedLocation(_) => b.managedLocation.Some?
    case DefaultCollation(_) => b.defaultCollation.Some?
    case Comment(_) => b.comment.Some?
    case WithOptions(_) => b.options.Some?
    case DbProperties(_) => b.properties.Some?
    case DryRun => b.dryRun
    case FullMode => b.full
    case RetainHours(_) => b.retentionHours.Some?
  }

  function Set(b: Clauses, c: Clause): Clauses {
    match c
    case UsingShare(share) => b.(usingShare := Some(share))
    case UsingFormat(_) => b
    case ManagedLocation(url) => b.(managedLocation := Some(url))
    case DefaultCollation(collation) => b.(defaultCollation := Some(collation))
    case Comment(comment) => b.(comment := Some(comment))
    case WithOptions(options) => b.(options := Some(options))
    case DbProperties(properties) => b.(properties := Some(properties))
    case DryRun => b.(dryRun := true)
    case FullMode => b.(full := true)
    case RetainHours(hours) => b.(retentionHours := Some(hours))
  }

  function Apply(host: Host, b: Clauses, c: Clause): Option<Clauses> {
    if Sound(host, c) && (Once(c) ==> !IsSet(b, c)) then Some(Set(b, c)) else None
  }

  predicate EndsStatement(t: Token) {
    t == EOF || t == SemiColon
  }

  /** One clause, parsed and applied. */
  function ClauseStep(host: Host, form: Form, b: Clauses, ts: Tokens): (r: Parsed<Clauses>)
    requires Opens(form, Head(ts))
    ensures r.Some? ==> Shorter(r.value.1, ts)
  {
    var (c, rest) :- ParseClause(form, ts);
    var b' :- Apply(host, b, c);
    Some((b', rest))
  }

  /** The clause loop: clauses until the statement's own end, which it takes as well. */
  function ParseClauses(host: Host, form: Form, b: Clauses, ts: Tokens): (r: Parsed<Clauses>)
    ensures r.Some? ==> Within(r.value.1, ts)
    decreases ts
  {
    if Opens(form, Head(ts)) then
      var (b', rest) :- ClauseStep(host, form, b, ts);
      ParseClauses(host, form, b', rest)
    else if EndsStatement(Head(ts)) then Some((b, Tail(ts)))
    else None
  }

  // ---------------------------------------------------------------- statements

  predicate NameFits(form: Form, name: ObjectName) {
    match form
    case CatalogForm => |name| == 1
    case SchemaForm => |name| <= 2
    case _ => true
  }

  /** The statement a filled builder gives; a catalog is shared or located, not both. */
  function Build(form: Form, name: ObjectName, ifNotExists: bool, columns: nat, b: Clauses): Option<Statement> {
    match form
    case CatalogForm =>
      if b.usingShare.Some? && b.managedLocation.Some? then None
      else Some(CreateCatalog(name, ifNotExists, b.usingShare, b.managedLocation, b.defaultCollation,
                              b.comment, b.options))
    case SchemaForm => Some(CreateSchema(name, ifNotExists, b.managedLocation, b.comment, b.properties))
    case TableForm => Some(CreateManagedTable(name, columns, ifNotExists))
    case VacuumForm => Some(VacuumTable(name, b.full, b.retentionHours, b.dryRun))
  }

  /** A table's column list; the other statements have none. */
  function ParseColumns(form: Form, ts: Tokens): Parsed<nat> {
    if form != TableForm then Some((0, ts))
    else if Head(ts).Columns? then Some((Head(ts).columns, Tail(ts)))
    else None
  }

  /** `IF NOT EXISTS`, where it may be said. */
  function ParseIfNotExists(form: Form, ts: Tokens): (bool, Tokens) {
    if form != VacuumForm && LeadsThree(IF, NOT, EXISTS, ts) then (true, Tail(Tail(Tail(ts)))) else (false, ts)
  }

  /** What follows the name. */
  function ParseRest(host: Host, form: Form, name: ObjectName, ifNotExists: bool, ts: Tokens): (r: Parsed<Statement>)
    ensures r.Some? ==> Within(r.value.1, ts)
  {
    var (columns, afterColumns) :- ParseColumns(form, ts);
    var (b, rest) :- ParseClauses(host, form, NO_CLAUSES, afterColumns);
    var statement :- Build(form, name, ifNotExists, columns, b);
    Some((statement, rest))
  }

  /** After `CREATE CATALOG`, `CREATE SCHEMA`, `CREATE TABLE` or `VACUUM`. */
  function ParseClausal(host: Host, form: Form, ts: Tokens): (r: Parsed<Statement>)
    ensures r.Some? ==> Shorter(r.value.1, ts)
  {
    var (ifNotExists, afterIf) := ParseIfNotExists(form, ts);
    var (name, afterName) :- ParseName(afterIf);
    if NameFits(form, name) then ParseRest(host, form, name, ifNotExists, afterName) else None
  }

  function ParseIfExists(ts: Tokens): (bool, Tokens) {
    if LeadsTwo(IF, EXISTS, ts) then (true, Tail(Tail(ts))) else (false, ts)
  }

  /** After `DROP CATALOG` or `DROP SCHEMA`; the statement's end is left where it is. */
  function ParseDropped(form: Form, ts: Tokens): (r: Parsed<Statement>)
    requires form == CatalogForm || form == SchemaForm
    ensures r.Some? ==> Shorter(r.value.1, ts)
  {
    var (ifExists, afterIf) := ParseIfExists(ts);
    var (name, afterName) :- ParseName(afterIf);
    var (cascade, rest) := if Leads(CASCADE, afterName) then (true, Tail(afterName)) else (false, afterName);
    if !NameFits(form, name) then None
    else if form == CatalogForm then Some((DropCatalog(name, ifExists, cascade), rest))
    else Some((DropSchema(name, ifExists, cascade), rest))
  }

  /** What a `CREATE` creates: an object of ours, one that is not implemented yet, or something else. */
  datatype Created = Ours(form: Form) | NotImplemented | Theirs

  function WhatIsCreated(ts: Tokens): Created {
    if Leads(CATALOG, ts) then Ours(CatalogForm)
    else if Leads(CONNECTION, ts) || LeadsTwo(FOREIGN, CATALOG, ts) || Leads(LOCATION, ts) then NotImplemented
    else if Leads(SCHEMA, ts) then Ours(SchemaForm)
    else if Leads(SHARE, ts) then NotImplemented
    else if Leads(TABLE, ts) then Ours(TableForm)
    else Theirs
  }

  /** After `CREATE`. The kinds of object that are not implemented yet give nothing. */
  function ParseCreate(host: Host, create: Token, ts: Tokens): (r: Parsed<Statement>)
    ensures r.Some? ==> Within(r.value.1, ts)
  {
    match WhatIsCreated(ts)
    case Ours(form) => ParseClausal(host, form, Tail(ts))
    case NotImplemented => None
    case Theirs =>
      var n :- host.nativeCreate(ts);
      Some((Delegated([create] + Take(ts, n)), Drop(ts, n)))
  }

  function ParseNative(host: Host, ts: Tokens): (r: Parsed<Statement>)
    requires ts.Then?
    ensures r.Some? ==> Shorter(r.value.1, ts)
  {
    var n :- host.native(ts);
    Some((Delegated(Take(ts, n + 1)), Drop(ts, n + 1)))
  }

  function ParseStatement(host: Host, ts: Tokens): (r: Parsed<Statement>)
    requires ts.Then?
    ensures r.Some? ==> Shorter(r.value.1, ts)
  {
    if Leads(CREATE, ts) then ParseCreate(host, Head(ts), Tail(ts))
    else if LeadsTwo(DROP, CATALOG, ts) then ParseDropped(CatalogForm, Tail(Tail(ts)))
    else if LeadsTwo(DROP, SCHEMA, ts) then ParseDropped(SchemaForm, Tail(Tail(ts)))
    else if Leads(VACUUM, ts) then ParseClausal(host, VacuumForm, Tail(ts))
    else ParseNative(host, ts)
  }

  function SkipSemicolons(ts: Tokens): (r: Tokens)
    ensures Within(r, ts) && Head(r) != SemiColon
    ensures Head(ts) != SemiColon ==> r == ts
    ensures Head(ts) == SemiColon ==> Shorter(r, ts)
  {
    if Head(ts) == SemiColon then SkipSemicolons(Tail(ts)) else ts
  }

  /** The statement loop. `delimiterDue` says that a statement has just been taken, so that another one
      may follow only after a semicolon. It ends because every round takes a token. */
  function ParseStatements(host: Host, ts: Tokens, delimiterDue: bool): Option<seq<Statement>>
    decreases ts
  {
    var rest := SkipSemicolons(ts);
    if Head(rest) == EOF then Some([])
    else if delimiterDue && Head(ts) != SemiColon then None
    else
      var (statement, after) :- ParseStatement(host, rest);
      var more :- ParseStatements(host, after, true);
      Some([statement] + more)
  }
}
