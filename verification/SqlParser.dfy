/** The parser itself: a cursor over the tokens, and routines that move it. Each is tied to what the
    syntax says it takes off the remaining tokens. */
module SqlParser {
  import opened AsciiText
  import opened Results
  import opened Sequences
  import opened SqlSyntax

  /** The tokens from an index on; past the end there are none. */
  function From(tokens: seq<Token>, i: nat): Tokens
    decreases |tokens| - i
  {
    if i >= |tokens| then End else Then(tokens[i], From(tokens, i + 1))
  }

  /** A routine's result agrees with a parse: it fails when the parse does, and otherwise returns its
      value and leaves its rest. */
  predicate Agrees<T(==)>(p: Parsed<T>, r: Option<T>, rest: Tokens) {
    if p.None? then r.None? else r == Some(p.value.0) && rest == p.value.1
  }

  /** What is left to parse of a name, of a key, of options and of a script, given what has been read. */
  function NameGoesOn(name: ObjectName, period: bool, rest: Tokens): Parsed<ObjectName> {
    if !period then Some((name, rest))
    else
      var (more, rest') :- ParseName(rest);
      Some((name + more, rest'))
  }

  function KeyGoesOn(key: string, period: bool, rest: Tokens): Parsed<string> {
    if !period then Some((key, rest))
    else
      var (more, rest') :- ParseDotted(rest);
      Some((key + "." + more, rest'))
  }

  lemma KeyReads(key: string, value: string)
    ensures forall more: string :: key + "." + (value + "." + more) == key + "." + value + "." + more
  {
  }

  function OptionsGoOn(options: Options, rest: Tokens): Parsed<Options> {
    var (more, rest') :- ParseOptionList(rest);
    Some((options + more, rest'))
  }

  lemma OptionsStart(rest: Tokens)
    ensures OptionsGoOn([], rest) == ParseOptionList(rest)
  {
    if ParseOptionList(rest).Some? {
      var more := ParseOptionList(rest).value.0;
      assert [] + more == more;
    }
  }

  /** One more pair, and what its separator leads to. */
  lemma OptionsRound(options: Options, ts: Tokens, key: string, afterKey: Tokens, value: Value, afterValue: Tokens)
    requires ParseOptionKey(ts) == Some((key, afterKey)) && ParseOptionValue(afterKey) == Some((value, afterValue))
    ensures var comma := Head(afterValue) == Comma;
      var rest := if comma then Tail(afterValue) else afterValue;
      OptionsGoOn(options, ts)
      == if Head(rest) == RParen then Some((options + [(key, value)], Tail(rest)))
         else if !comma then None
         else OptionsGoOn(options + [(key, value)], rest)
  {
    var comma := Head(afterValue) == Comma;
    var rest := if comma then Tail(afterValue) else afterValue;
    if Head(rest) != RParen && comma && ParseOptionList(rest).Some? {
      var more := ParseOptionList(rest).value.0;
      assert options + ([(key, value)] + more) == options + [(key, value)] + more;
    }
  }

  function StatementsGoOn(host: Host, statements: seq<Statement>, rest: Tokens, due: bool): Option<seq<Statement>> {
    var more :- ParseStatements(host, rest, due);
    Some(statements + more)
  }

  lemma StatementsStart(host: Host, rest: Tokens)
    ensures StatementsGoOn(host, [], rest, false) == ParseStatements(host, rest, false)
  {
    if ParseStatements(host, rest, false).Some? {
      var more := ParseStatements(host, rest, false).value;
      assert [] + more == more;
    }
  }

  /** One more round of the statement loop. */
  lemma StatementsRound(host: Host, statements: seq<Statement>, ts: Tokens, due: bool)
    ensures var rest := SkipSemicolons(ts);
      StatementsGoOn(host, statements, ts, due)
      == if Head(rest) == EOF then Some(statements)
         else if due && Head(ts) != SemiColon then None
         else match ParseStatement(host, rest)
              case None => None
              case Some((statement, after)) => StatementsGoOn(host, statements + [statement], after, true)
  {
    var rest := SkipSemicolons(ts);
    if Head(rest) == EOF {
      AppendNone(statements);
    } else if !(due && Head(ts) != SemiColon) && ParseStatement(host, rest).Some? {
      var statement, after := ParseStatement(host, rest).value.0, ParseStatement(host, rest).value.1;
      var more := ParseStatements(host, after, true);
      if more.Some? { AppendAssoc(statements, [statement], more.value); }
    }
  }

  class HFParser {
    const host: Host
    const tokens: seq<Token>
    var index: nat

    constructor (host: Host, tokens: seq<Token>)
      ensures this.host == host && this.tokens == tokens && Rest() == From(tokens, 0)
    {
      this.host, this.tokens, index := host, tokens, 0;
    }

    function Rest(): Tokens
      reads this
    {
      From(tokens, index)
    }

    // ---------------------------------------------------------------- the cursor

    method PeekToken() returns (t: Token)
      ensures t == Head(Rest())
    {
      t := if index < |tokens| then tokens[index] else EOF;
    }

    method PeekSecond() returns (t: Token)
      ensures t == Head(Tail(Rest()))
    {
      assert Tail(Rest()) == From(tokens, index + 1);
      t := if index + 1 < |tokens| then tokens[index + 1] else EOF;
    }

    method NextToken() returns (t: Token)
      modifies this
      ensures t == Head(old(Rest())) && Rest() == Tail(old(Rest()))
    {
      t := PeekToken();
      index := index + 1;
    }

    method ConsumeToken(t: Token) returns (taken: bool)
      modifies this
      ensures taken <==> Head(old(Rest())) == t
      ensures Rest() == if taken then Tail(old(Rest())) else old(Rest())
    {
      var next := PeekToken();
      taken := next == t;
      if taken { index := index + 1; }
    }

    method TakeKeyword(k: Keyword) returns (taken: bool)
      modifies this
      ensures taken <==> Leads(k, old(Rest()))
      ensures Rest() == if taken then Tail(old(Rest())) else old(Rest())
    {
      var next := PeekToken();
      taken := IsKeyword(next, k);
      if taken { index := index + 1; }
    }

    /** Both keywords or neither. */
    method TakeKeywords(k: Keyword, l: Keyword) returns (taken: bool)
      modifies this
      ensures taken <==> LeadsTwo(k, l, old(Rest()))
      ensures Rest() == if taken then Tail(Tail(old(Rest()))) else old(Rest())
    {
      var first := PeekToken();
      var second := PeekSecond();
      taken := IsKeyword(first, k) && IsKeyword(second, l);
      if taken {
        var _ := NextToken();
        var _ := NextToken();
      }
    }

    method TakeIfNotExists() returns (taken: bool)
      modifies this
      ensures taken <==> LeadsThree(IF, NOT, EXISTS, old(Rest()))
      ensures Rest() == if taken then Tail(Tail(Tail(old(Rest())))) else old(Rest())
    {
      ghost var afterFirst := Tail(Rest());
      var start := index;
      taken := TakeKeyword(IF);
      if taken {
        assert Rest() == afterFirst;
        taken := TakeKeywords(NOT, EXISTS);
        if !taken { index := start; }
      }
    }

    method ExpectKeyword(k: Keyword) returns (r: Option<()>)
      modifies this
      ensures r.Some? <==> Leads(k, old(Rest()))
      ensures r.Some? ==> Rest() == Tail(old(Rest()))
    {
      var taken := TakeKeyword(k);
      return if taken then Some(()) else None;
    }

    method ParseLiteralString() returns (r: Option<string>)
      modifies this
      ensures Agrees(ParseString(old(Rest())), r, Rest())
    {
      var t := NextToken();
      match t {
        case Word(value, _, keyword) => return if keyword == NoKeyword then Some(value) else None;
        case SingleQuoted(text) => return Some(text);
        case DoubleQuoted(text) => return Some(text);
        case Escaped(text) => return Some(text);
        case Unicode(text) => return Some(text);
        case _ => return None;
      }
    }

    method ParseIdentifier() returns (r: Option<Ident>)
      modifies this
      ensures Agrees(ParseIdent(old(Rest())), r, Rest())
    {
      var t := NextToken();
      match t {
        case Word(value, quote, _) => return Some(Ident(value, quote));
        case SingleQuoted(text) => return Some(Ident(text, Some('\'')));
        case DoubleQuoted(text) => return Some(Ident(text, Some('"')));
        case _ => return None;
      }
    }

    method ParseObjectName() returns (r: Option<ObjectName>)
      modifies this
      ensures Agrees(ParseName(old(Rest())), r, Rest())
    {
      var ident :- ParseIdentifier();
      var name := [ident];
      var period := ConsumeToken(Period);
      while period
        invariant ParseName(old(Rest())) == NameGoesOn(name, period, Rest())
        decreases Rest()
      {
        ident :- ParseIdentifier();
        ReadOne(name, ident);
        name := name + [ident];
        period := ConsumeToken(Period);
      }
      return Some(name);
    }

    // ---------------------------------------------------------------- options

    method ParseKey() returns (r: Option<string>)
      modifies this
      ensures Agrees(ParseOptionKey(old(Rest())), r, Rest())
    {
      var t := NextToken();
      match t {
        case Word(value, _, _) =>
          var key := value;
          var period := ConsumeToken(Period);
          while period
            invariant ParseDotted(old(Rest())) == KeyGoesOn(key, period, Rest())
            decreases Rest()
          {
            var next := NextToken();
            if !next.Word? { return None; }
            AppendAssoc(key, ".", next.value);
            KeyReads(key, next.value);
            key := key + "." + next.value;
            period := ConsumeToken(Period);
          }
          return Some(key);
        case SingleQuoted(text) => return Some(text);
        case DoubleQuoted(text) => return Some(text);
        case Escaped(text) => return Some(text);
        case _ => return None;
      }
    }

    method ParseValue() returns (r: Option<Value>)
      modifies this
      ensures Agrees(ParseOptionValue(old(Rest())), r, Rest())
    {
      var t := NextToken();
      match t {
        case Word(value, _, _) => return Some(SingleValue(value));
        case SingleQuoted(text) => return Some(SingleValue(text));
        case DoubleQuoted(text) => return Some(DoubleValue(text));
        case Escaped(text) => return Some(EscapedValue(text));
        case Number(digits, long) => return Some(NumberValue(digits, long));
        case _ => return None;
      }
    }

    method ParseValueOptions() returns (r: Option<Options>)
      modifies this
      ensures Agrees(ParseOptions(old(Rest())), r, Rest())
    {
      var options: Options := [];
      var paren := ConsumeToken(LParen);
      if !paren { return None; }
      OptionsStart(Rest());
      while true
        invariant ParseOptions(old(Rest())) == OptionsGoOn(options, Rest())
        decreases Rest()
      {
        ghost var round := Rest();
        var key :- ParseKey();
        ghost var afterKey := Rest();
        var value :- ParseValue();
        OptionsRound(options, round, key, afterKey, value, Rest());
        options := options + [(key, value)];
        var comma, close;
        comma := ConsumeToken(Comma);
        close := ConsumeToken(RParen);
        if close { return Some(options); }
        if !comma { return None; }
      }
    }

    // ---------------------------------------------------------------- statements with clauses

    /** The clause loop, the same in all four statements but for the clauses they have. */
    method ParseAllClauses(form: Form) returns (r: Option<Clauses>)
      modifies this
      ensures Agrees(ParseClauses(host, form, NO_CLAUSES, old(Rest())), r, Rest())
    {
      var builder := NO_CLAUSES;
      while true
        invariant ParseClauses(host, form, NO_CLAUSES, old(Rest())) == ParseClauses(host, form, builder, Rest())
        decreases Rest()
      {
        var t := PeekToken();
        if Opens(form, t) {
          builder :- ParseOneClause(form, builder);
        } else {
          t := NextToken();
          return if EndsStatement(t) then Some(builder) else None;
        }
      }
    }

    method ParseOneClause(form: Form, builder: Clauses) returns (r: Option<Clauses>)
      requires Opens(form, Head(Rest()))
      modifies this
      ensures Agrees(ClauseStep(host, form, builder, old(Rest())), r, Rest())
    {
      match form {
        case CatalogForm => r := ParseCatalogClause(builder);
        case SchemaForm => r := ParseSchemaClause(builder);
        case TableForm => r := ParseTableClause(builder);
        case VacuumForm => r := ParseVacuumClause(builder);
      }
    }

    /** One clause of `VACUUM`; the opening keyword is next. */
    method ParseVacuumClause(command: Clauses) returns (r: Option<Clauses>)
      requires Opens(VacuumForm, Head(Rest()))
      modifies this
      ensures Agrees(ClauseStep(host, VacuumForm, command, old(Rest())), r, Rest())
    {
      var t := PeekToken();
      if t.keyword == RETAIN { r := ParseRetain(command); return; }
      t := NextToken();
      if t.keyword == FULL { return Some(command.(full := true)); }
      var _ :- ExpectKeyword(RUN);
      return if command.dryRun then None else Some(command.(dryRun := true));
    }

    method ParseRetain(command: Clauses) returns (r: Option<Clauses>)
      requires Leads(RETAIN, Rest())
      modifies this
      ensures Agrees(ClauseStep(host, VacuumForm, command, old(Rest())), r, Rest())
    {
      var _ := NextToken();
      var number := NextToken();
      if !number.Number? { return None; }
      var _ :- ExpectKeyword(HOURS);
      return Some(command.(retentionHours := Some(number.digits)));
    }

    method ParseVacuum() returns (r: Option<Statement>)
      modifies this
      ensures Agrees(ParseClausal(host, VacuumForm, Tail(old(Rest()))), r, Rest())
    {
      var _ := NextToken();
      var name :- ParseObjectName();
      var builder :- ParseAllClauses(VacuumForm);
      return Some(VacuumTable(name, builder.full, builder.retentionHours, builder.dryRun));
    }

    method ParseCreateTable() returns (r: Option<Statement>)
      modifies this
      ensures Agrees(ParseClausal(host, TableForm, Tail(old(Rest()))), r, Rest())
    {
      var _ := NextToken();
      var ifNotExists := TakeIfNotExists();
      var name :- ParseObjectName();
      r := ParseTableRest(name, ifNotExists);
    }

    /** The columns, which must be there, and the clauses. */
    method ParseTableRest(name: ObjectName, ifNotExists: bool) returns (r: Option<Statement>)
      modifies this
      ensures Agrees(ParseRest(host, TableForm, name, ifNotExists, old(Rest())), r, Rest())
    {
      var columns := NextToken();
      if !columns.Columns? { return None; }
      var _ :- ParseAllClauses(TableForm);
      return Some(CreateManagedTable(name, columns.columns, ifNotExists));
    }

    /** One clause of `CREATE TABLE`: the format's name is read and dropped; a location is refused. */
    method ParseTableClause(builder: Clauses) returns (r: Option<Clauses>)
      requires Opens(TableForm, Head(Rest()))
      modifies this
      ensures Agrees(ClauseStep(host, TableForm, builder, old(Rest())), r, Rest())
    {
      var t := NextToken();
      if t.keyword == LOCATION { return None; }
      var _ :- ParseObjectName();
      return Some(builder);
    }

    /** `MANAGED LOCATION`, in both statements that have it. */
    method ParseManagedLocation(form: Form, builder: Clauses) returns (r: Option<Clauses>)
      requires form == CatalogForm || form == SchemaForm
      requires Leads(MANAGED, Rest())
      modifies this
      ensures Agrees(ClauseStep(host, form, builder, old(Rest())), r, Rest())
    {
      var _ := NextToken();
      var _ :- ExpectKeyword(LOCATION);
      if builder.managedLocation.Some? { return None; }
      var url :- ParseLiteralString();
      if !host.validUrl(url) { return None; }
      return Some(builder.(managedLocation := Some(url)));
    }

    method ParseComment(form: Form, builder: Clauses) returns (r: Option<Clauses>)
      requires form == CatalogForm || form == SchemaForm
      requires Leads(COMMENT, Rest())
      modifies this
      ensures Agrees(ClauseStep(host, form, builder, old(Rest())), r, Rest())
    {
      var _ := NextToken();
      if builder.comment.Some? { return None; }
      var comment :- ParseLiteralString();
      return Some(builder.(comment := Some(comment)));
    }

    method ParseUsingShare(builder: Clauses) returns (r: Option<Clauses>)
      requires Leads(USING, Rest())
      modifies this
      ensures Agrees(ClauseStep(host, CatalogForm, builder, old(Rest())), r, Rest())
    {
      var _ := NextToken();
      var _ :- ExpectKeyword(SHARE);
      if builder.usingShare.Some? { return None; }
      var share :- ParseObjectName();
      return if |share| == 2 then Some(builder.(usingShare := Some(share))) else None;
    }

    method ParseDefaultCollation(builder: Clauses) returns (r: Option<Clauses>)
      requires Leads(DEFAULT, Rest())
      modifies this
      ensures Agrees(ClauseStep(host, CatalogForm, builder, old(Rest())), r, Rest())
    {
      var _ := NextToken();
      var _ :- ExpectKeyword(COLLATION);
      if builder.defaultCollation.Some? { return None; }
      var collation :- ParseLiteralString();
      return Some(builder.(defaultCollation := Some(collation)));
    }

    method ParseCatalogClause(builder: Clauses) returns (r: Option<Clauses>)
      requires Opens(CatalogForm, Head(Rest()))
      modifies this
      ensures Agrees(ClauseStep(host, CatalogForm, builder, old(Rest())), r, Rest())
    {
      var t := PeekToken();
      if t.keyword == MANAGED { r := ParseManagedLocation(CatalogForm, builder); return; }
      if t.keyword == COMMENT { r := ParseComment(CatalogForm, builder); return; }
      if t.keyword == USING { r := ParseUsingShare(builder); return; }
      if t.keyword == DEFAULT { r := ParseDefaultCollation(builder); return; }
      t := NextToken();
      if builder.options.Some? { return None; }
      var options :- ParseValueOptions();
      return Some(builder.(options := Some(options)));
    }

    method ParseCreateCatalog() returns (r: Option<Statement>)
      modifies this
      ensures Agrees(ParseClausal(host, CatalogForm, old(Rest())), r, Rest())
    {
      var ifNotExists := TakeIfNotExists();
      var name :- ParseObjectName();
      if |name| != 1 { return None; }
      var builder :- ParseAllClauses(CatalogForm);
      if builder.usingShare.Some? && builder.managedLocation.Some? { return None; }
      return Some(CreateCatalog(name, ifNotExists, builder.usingShare, builder.managedLocation,
                                builder.defaultCollation, builder.comment, builder.options));
    }

    method ParseSchemaClause(builder: Clauses) returns (r: Option<Clauses>)
      requires Opens(SchemaForm, Head(Rest()))
      modifies this
      ensures Agrees(ClauseStep(host, SchemaForm, builder, old(Rest())), r, Rest())
    {
      var t := PeekToken();
      if t.keyword == MANAGED { r := ParseManagedLocation(SchemaForm, builder); return; }
      if t.keyword == COMMENT { r := ParseComment(SchemaForm, builder); return; }
      t := NextToken();
      var next := NextToken();
      if !next.Word? || !EqualsIgnoreCase(next.value, "DBPROPERTIES") { return None; }
      if builder.properties.Some? { return None; }
      var properties :- ParseValueOptions();
      return Some(builder.(properties := Some(properties)));
    }

    method ParseCreateSchema() returns (r: Option<Statement>)
      modifies this
      ensures Agrees(ParseClausal(host, SchemaForm, old(Rest())), r, Rest())
    {
      var ifNotExists := TakeIfNotExists();
      var name :- ParseObjectName();
      if |name| > 2 { return None; }
      var builder :- ParseAllClauses(SchemaForm);
      return Some(CreateSchema(name, ifNotExists, builder.managedLocation, builder.comment, builder.properties));
    }

    // ---------------------------------------------------------------- dispatch

    method ParseDropObject(form: Form) returns (r: Option<Statement>)
      requires form == CatalogForm || form == SchemaForm
      modifies this
      ensures Agrees(ParseDropped(form, old(Rest())), r, Rest())
    {
      var ifExists := TakeKeywords(IF, EXISTS);
      var name :- ParseObjectName();
      if (form == CatalogForm && |name| != 1) || |name| > 2 { return None; }
      var cascade := TakeKeyword(CASCADE);
      return Some(if form == CatalogForm then DropCatalog(name, ifExists, cascade)
        else DropSchema(name, ifExists, cascade));
    }

    /** The parser underneath takes its tokens. */
    method Skip(n: nat) returns (taken: seq<Token>)
      modifies this
      ensures taken == Take(old(Rest()), n) && Rest() == Drop(old(Rest()), n)
      decreases n
    {
      if n == 0 || index >= |tokens| { return []; }
      var t := NextToken();
      var more := Skip(n - 1);
      return [t] + more;
    }

    method ParseDrop() returns (r: Option<Statement>)
      requires Leads(DROP, Rest())
      modifies this
      ensures Agrees(ParseStatement(host, old(Rest())), r, Rest())
    {
      var catalog := TakeKeywords(DROP, CATALOG);
      if catalog {
        r := ParseDropObject(CatalogForm);
        return;
      }
      var schema := TakeKeywords(DROP, SCHEMA);
      if schema {
        r := ParseDropObject(SchemaForm);
        return;
      }
      r := ParseAndHandleStatement();
    }

    method ParseAndHandleStatement() returns (r: Option<Statement>)
      requires Rest().Then?
      modifies this
      ensures Agrees(ParseNative(host, old(Rest())), r, Rest())
    {
      var n :- host.native(Rest());
      var taken := Skip(n + 1);
      return Some(Delegated(taken));
    }

    method ParseCreateObject(create: Token) returns (r: Option<Statement>)
      modifies this
      ensures Agrees(ParseCreate(host, create, old(Rest())), r, Rest())
    {
      var kind := PeekToken();
      if IsKeyword(kind, CATALOG) {
        var _ := NextToken();
        r := ParseCreateCatalog();
        return;
      }
      if IsKeyword(kind, CONNECTION) { return None; }
      var foreign := TakeKeywords(FOREIGN, CATALOG);
      if foreign || IsKeyword(kind, LOCATION) { return None; }
      if IsKeyword(kind, SCHEMA) {
        var _ := NextToken();
        r := ParseCreateSchema();
        return;
      }
      if IsKeyword(kind, SHARE) { return None; }
      if IsKeyword(kind, TABLE) {
        r := ParseCreateTable();
        return;
      }
      var n :- host.nativeCreate(Rest());
      var taken := Skip(n);
      return Some(Delegated([create] + taken));
    }

    method ParseOneStatement() returns (r: Option<Statement>)
      requires Rest().Then?
      modifies this
      ensures Agrees(ParseStatement(host, old(Rest())), r, Rest())
    {
      var t := PeekToken();
      if IsKeyword(t, CREATE) {
        var _ := NextToken();
        r := ParseCreateObject(t);
      } else if IsKeyword(t, DROP) {
        r := ParseDrop();
      } else if IsKeyword(t, VACUUM) {
        r := ParseVacuum();
      } else {
        r := ParseAndHandleStatement();
      }
    }

    // ---------------------------------------------------------------- the statement loop

    /** Empty statements between delimiters; whether there was a delimiter. */
    method SkipEmpty() returns (any: bool)
      modifies this
      ensures any <==> Head(old(Rest())) == SemiColon
      ensures Rest() == SkipSemicolons(old(Rest()))
    {
      any := false;
      var semicolon := ConsumeToken(SemiColon);
      while semicolon
        invariant SkipSemicolons(old(Rest())) == if semicolon then SkipSemicolons(Rest()) else Rest()
        invariant any || semicolon <==> Head(old(Rest())) == SemiColon
        decreases Rest(), semicolon
      {
        any := true;
        semicolon := ConsumeToken(SemiColon);
      }
    }

    /** All statements of the text. The loop ends because every round takes a token. */
    method ParseSql() returns (r: Option<seq<Statement>>)
      modifies this
      ensures r == ParseStatements(host, old(Rest()), false)
    {
      var statements: seq<Statement> := [];
      var due := false;
      StatementsStart(host, Rest());
      while true
        invariant ParseStatements(host, old(Rest()), false) == StatementsGoOn(host, statements, Rest(), due)
        decreases Rest()
      {
        ghost var round := Rest();
        var delimiter := SkipEmpty();
        StatementsRound(host, statements, round, due);
        var t := PeekToken();
        if t == EOF { return Some(statements); }
        if due && !delimiter { return None; }
        var statement :- ParseOneStatement();
        statements := statements + [statement];
        due := true;
      }
    }
  }
}
