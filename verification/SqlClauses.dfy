/** The order-free clause loops: which clause lists are accepted, and that a statement comes back from
    its clauses in any order. */
module SqlClauses {
  import opened Results
  import opened SqlSyntax
  import opened SqlRoundTrip

  function Kind(c: Clause): nat {
    match c
    case UsingShare(_) => 0
    case UsingFormat(_) => 1
    case ManagedLocation(_) => 2
    case DefaultCollation(_) => 3
    case Comment(_) => 4
    case WithOptions(_) => 5
    case DbProperties(_) => 6
    case DryRun => 7
    case FullMode => 8
    case RetainHours(_) => 9
  }

  /** Whether the filled fields say this very clause. A table's format is not kept. */
  predicate Holds(b: Clauses, c: Clause) {
    match c
    case UsingShare(share) => b.usingShare == Some(share)
    case UsingFormat(_) => false
    case ManagedLocation(url) => b.managedLocation == Some(url)
    case DefaultCollation(collation) => b.defaultCollation == Some(collation)
    case Comment(comment) => b.comment == Some(comment)
    case WithOptions(options) => b.options == Some(options)
    case DbProperties(properties) => b.properties == Some(properties)
    case DryRun => b.dryRun
    case FullMode => b.full
    case RetainHours(hours) => b.retentionHours == Some(hours)
  }

  // ---------------------------------------------------------------- which lists are accepted

  /** No clause that may be said once is said twice. */
  predicate NothingTwice(cs: seq<Clause>) {
    forall i, j :: 0 <= i < j < |cs| && Once(cs[i]) ==> Kind(cs[i]) != Kind(cs[j])
  }

  predicate Mentions(cs: seq<Clause>, kind: nat) {
    exists c <- cs :: Kind(c) == kind
  }

  lemma NothingTwiceSplits(cs: seq<Clause>)
    requires cs != []
    ensures NothingTwice(cs) <==>
      NothingTwice(cs[1..]) && (Once(cs[0]) ==> forall d <- cs[1..] :: Kind(d) != Kind(cs[0]))
  {
  }

  lemma SetSets(b: Clauses, c: Clause, d: Clause)
    ensures IsSet(Set(b, c), d) <==> IsSet(b, d) || (Kind(c) == Kind(d) && !c.UsingFormat?)
  {
  }

  /** Set what is not set, with nothing said twice: exactly then the whole list is taken. */
  lemma {:induction false} ApplyAllIff(host: Host, b: Clauses, cs: seq<Clause>)
    ensures ApplyAll(host, b, cs).Some? <==>
      && NothingTwice(cs)
      && forall c <- cs :: Sound(host, c) && (Once(c) ==> !IsSet(b, c))
    decreases |cs|
  {
    if cs != [] {
      var c, rest := cs[0], cs[1..];
      assert cs == [c] + rest;
      NothingTwiceSplits(cs);
      ApplyAllIff(host, Set(b, c), rest);
      forall d ensures IsSet(Set(b, c), d) <==> IsSet(b, d) || (Kind(c) == Kind(d) && !c.UsingFormat?) {
        SetSets(b, c, d);
      }
      OnceByKind();
    }
  }

  lemma OnceByKind()
    ensures forall c, d :: Kind(c) == Kind(d) ==> (Once(c) <==> Once(d)) && (c.UsingFormat? <==> d.UsingFormat?)
  {
  }

  /** A field is set afterwards exactly when it was before or a clause of its kind is in the list. */
  lemma {:induction false} SetAfterAll(host: Host, b: Clauses, cs: seq<Clause>, d: Clause)
    requires ApplyAll(host, b, cs).Some?
    ensures IsSet(ApplyAll(host, b, cs).value, d) <==> IsSet(b, d) || (Mentions(cs, Kind(d)) && !d.UsingFormat?)
    decreases |cs|
  {
    if cs != [] {
      var c, rest := cs[0], cs[1..];
      assert cs == [c] + rest;
      SetSets(b, c, d);
      SetAfterAll(host, Set(b, c), rest, d);
      OnceByKind();
      if Mentions(rest, Kind(d)) { var e :| e in rest && Kind(e) == Kind(d); assert e in cs; }
      if Kind(c) == Kind(d) { assert c in cs; }
    }
  }

  /** A statement with clauses is accepted exactly when its name has the right number of parts, every
      share name has two and every location is a URL, no clause but `FULL`, `RETAIN` and a table's
      `USING` is said twice, and a catalog is not both shared and located. */
  lemma AcceptedIff(host: Host, w: Written)
    requires Writable(w) && w.Clausal?
    ensures Meaning(host, w).Some? <==>
      && NameFits(w.form, w.name)
      && (forall c <- w.clauses :: Sound(host, c))
      && NothingTwice(w.clauses)
      && !(w.form == CatalogForm && Mentions(w.clauses, Kind(UsingShare([])))
        && Mentions(w.clauses, Kind(ManagedLocation(""))))
  {
    ApplyAllIff(host, NO_CLAUSES, w.clauses);
    var b := ApplyAll(host, NO_CLAUSES, w.clauses);
    if b.Some? {
      SetAfterAll(host, NO_CLAUSES, w.clauses, UsingShare([]));
      SetAfterAll(host, NO_CLAUSES, w.clauses, ManagedLocation(""));
    }
  }

  /** Of several `RETAIN` clauses the last wins. */
  lemma {:induction false} LastRetainWins(host: Host, b: Clauses, before: seq<Clause>, hours: string,
                                          after: seq<Clause>)
    requires forall c <- after :: !c.RetainHours?
    requires ApplyAll(host, b, before + [RetainHours(hours)] + after).Some?
    ensures ApplyAll(host, b, before + [RetainHours(hours)] + after).value.retentionHours == Some(hours)
    decreases |before| + |after|
  {
    var cs := before + [RetainHours(hours)] + after;
    if before != [] {
      assert cs[1..] == before[1..] + [RetainHours(hours)] + after;
      LastRetainWins(host, Set(b, cs[0]), before[1..], hours, after);
    } else {
      assert cs[1..] == after;
      KeepsHours(host, Set(b, cs[0]), after);
    }
  }

  lemma {:induction false} KeepsHours(host: Host, b: Clauses, cs: seq<Clause>)
    requires forall c <- cs :: !c.RetainHours?
    requires ApplyAll(host, b, cs).Some?
    ensures ApplyAll(host, b, cs).value.retentionHours == b.retentionHours
    decreases |cs|
  {
    if cs != [] { KeepsHours(host, Set(b, cs[0]), cs[1..]); }
  }

  // ---------------------------------------------------------------- statements from their clauses

  /** The statements with clauses, and their fields as the builder holds them. */
  predicate HasClauses(s: Statement) {
    s.CreateCatalog? || s.CreateSchema? || s.CreateManagedTable? || s.VacuumTable?
  }

  function FormOf(s: Statement): Form
    requires HasClauses(s)
  {
    if s.CreateCatalog? then CatalogForm else if s.CreateSchema? then SchemaForm
    else if s.CreateManagedTable? then TableForm else VacuumForm
  }

  function FieldsOf(s: Statement): Clauses
    requires HasClauses(s)
  {
    match s
    case CreateCatalog(_, _, share, location, collation, comment, options) =>
      Clauses(share, location, collation, comment, options, None, false, None, false)
    case CreateSchema(_, _, location, comment, properties) =>
      Clauses(None, location, None, comment, None, properties, false, None, false)
    case CreateManagedTable(_, _, _) => NO_CLAUSES
    case VacuumTable(_, full, hours, dryRun) => Clauses(None, None, None, None, None, None, full, hours, dryRun)
  }

  /** The clauses of `b`, each once, in any order; formats may stand anywhere between them. */
  ghost predicate Arranges(cs: seq<Clause>, b: Clauses) {
    && (forall c :: Holds(b, c) <==> c in cs && !c.UsingFormat?)
    && (forall i, j :: 0 <= i < j < |cs| && !cs[i].UsingFormat? ==> cs[i] != cs[j])
  }

  /** A statement written with its clauses in the order of `cs`. */
  function Write(s: Statement, cs: seq<Clause>): Written
    requires HasClauses(s)
  {
    Clausal(FormOf(s), s.name, if s.VacuumTable? then false else s.ifNotExists,
            if s.CreateManagedTable? then s.columns else 0, cs)
  }

  lemma SetHolds(b: Clauses, c: Clause, d: Clause)
    requires !IsSet(b, c)
    ensures Holds(Set(b, c), d) <==> Holds(b, d) || (c == d && !c.UsingFormat?)
  {
  }

  lemma HoldsIsSet(b: Clauses, c: Clause, d: Clause)
    requires Holds(b, c) && Kind(c) == Kind(d)
    ensures IsSet(b, d) && (Holds(b, d) ==> c == d)
  {
  }

  /** The builder ends up holding exactly what it held and what the list says. */
  lemma {:induction false} AllHold(host: Host, b: Clauses, cs: seq<Clause>, d: Clause)
    requires forall c <- cs :: Sound(host, c) && !IsSet(b, c)
    requires forall i, j :: 0 <= i < j < |cs| && !cs[i].UsingFormat? ==> Kind(cs[i]) != Kind(cs[j])
    ensures ApplyAll(host, b, cs).Some?
    ensures Holds(ApplyAll(host, b, cs).value, d) <==> Holds(b, d) || (d in cs && !d.UsingFormat?)
    decreases |cs|
  {
    if cs != [] {
      var c, rest := cs[0], cs[1..];
      assert cs == [c] + rest;
      forall i, j | 0 <= i < j < |rest| && !rest[i].UsingFormat? ensures Kind(rest[i]) != Kind(rest[j]) {
        assert rest[i] == cs[i + 1] && rest[j] == cs[j + 1];
      }
      forall e | e in rest ensures !IsSet(Set(b, c), e) {
        var j :| 0 <= j < |rest| && rest[j] == e;
        assert cs[j + 1] == e;
        SetSets(b, c, e);
      }
      SetHolds(b, c, d);
      AllHold(host, Set(b, c), rest, d);
    }
  }

  lemma SameHoldsSame(a: Clauses, b: Clauses)
    requires forall c :: Holds(a, c) <==> Holds(b, c)
    ensures a == b
  {
    assert Holds(a, DryRun) == Holds(b, DryRun) && Holds(a, FullMode) == Holds(b, FullMode);
    if a.usingShare.Some? { assert Holds(b, UsingShare(a.usingShare.value)); }
    if b.usingShare.Some? { assert Holds(a, UsingShare(b.usingShare.value)); }
    if a.managedLocation.Some? { assert Holds(b, ManagedLocation(a.managedLocation.value)); }
    if b.managedLocation.Some? { assert Holds(a, ManagedLocation(b.managedLocation.value)); }
    if a.defaultCollation.Some? { assert Holds(b, DefaultCollation(a.defaultCollation.value)); }
    if b.defaultCollation.Some? { assert Holds(a, DefaultCollation(b.defaultCollation.value)); }
    if a.comment.Some? { assert Holds(b, Comment(a.comment.value)); }
    if b.comment.Some? { assert Holds(a, Comment(b.comment.value)); }
    if a.options.Some? { assert Holds(b, WithOptions(a.options.value)); }
    if b.options.Some? { assert Holds(a, WithOptions(b.options.value)); }
    if a.properties.Some? { assert Holds(b, DbProperties(a.properties.value)); }
    if b.properties.Some? { assert Holds(a, DbProperties(b.properties.value)); }
    if a.retentionHours.Some? { assert Holds(b, RetainHours(a.retentionHours.value)); }
    if b.retentionHours.Some? { assert Holds(a, RetainHours(b.retentionHours.value)); }
  }

  lemma ArrangementBuilds(host: Host, b: Clauses, cs: seq<Clause>)
    requires Arranges(cs, b) && forall c <- cs :: Sound(host, c)
    ensures ApplyAll(host, NO_CLAUSES, cs) == Some(b)
  {
    forall i, j | 0 <= i < j < |cs| && !cs[i].UsingFormat? ensures Kind(cs[i]) != Kind(cs[j]) {
      if Kind(cs[i]) == Kind(cs[j]) {
        OnceByKind();
        assert Holds(b, cs[i]) && Holds(b, cs[j]);
        HoldsIsSet(b, cs[i], cs[j]);
      }
    }
    forall d
      ensures ApplyAll(host, NO_CLAUSES, cs).Some? && (Holds(ApplyAll(host, NO_CLAUSES, cs).value, d) <==> Holds(b, d))
    {
      AllHold(host, NO_CLAUSES, cs, d);
    }
    SameHoldsSame(ApplyAll(host, NO_CLAUSES, cs).value, b);
  }

  /** A statement the parser could have made. */
  predicate Proper(host: Host, s: Statement)
    requires HasClauses(s)
  {
    && s.name != [] && NameFits(FormOf(s), s.name)
    && (s.CreateCatalog? ==> !(s.usingShare.Some? && s.managedLocation.Some?))
  }

  /** Printing a statement with its clauses in any order, then any number of semicolons, and parsing
      gives back exactly that statement. */
  lemma RoundTrip(host: Host, lex: Lexicon, s: Statement, cs: seq<Clause>, semicolons: nat)
    requires HasClauses(s) && Proper(host, s)
    requires Arranges(cs, FieldsOf(s)) && Writable(Write(s, cs)) && forall c <- cs :: Sound(host, c)
    ensures ParseStatements(host, Print(lex, Write(s, cs), Semicolons(semicolons, End)), false) == Some([s])
  {
    ArrangementBuilds(host, FieldsOf(s), cs);
    assert Meaning(host, Write(s, cs)) == Some(s);
    OneStatement(host, lex, Write(s, cs), semicolons);
  }

  lemma OneStatement(host: Host, lex: Lexicon, w: Written, semicolons: nat)
    requires Writable(w) && Meaning(host, w).Some?
    ensures ParseStatements(host, Print(lex, w, Semicolons(semicolons, End)), false) == Some([Meaning(host, w).value])
  {
    PrintOne(lex, w, semicolons);
    ScriptParsesIff(host, lex, [(w, semicolons)]);
    MeaningOne(host, w, semicolons);
  }

  lemma PrintOne(lex: Lexicon, w: Written, semicolons: nat)
    requires Writable(w)
    ensures PrintScript(lex, [(w, semicolons)]) == Print(lex, w, Semicolons(semicolons, End))
  {
  }

  lemma MeaningOne(host: Host, w: Written, semicolons: nat)
    requires Meaning(host, w).Some?
    ensures Meanings(host, [(w, semicolons)]) == Some([Meaning(host, w).value])
  {
    var script := [(w, semicolons)];
    var rest := script[1..];
    assert rest == [] && Meanings(host, rest) == Some([]);
    assert [Meaning(host, w).value] + [] == [Meaning(host, w).value];
  }

  /** `DROP CATALOG` and `DROP SCHEMA` come back too. */
  lemma DropRoundTrip(host: Host, lex: Lexicon, s: Statement, semicolons: nat)
    requires s.DropCatalog? || s.DropSchema?
    requires s.name != [] && NameFits(if s.DropCatalog? then CatalogForm else SchemaForm, s.name)
    ensures var w := Dropped(if s.DropCatalog? then CatalogForm else SchemaForm, s.name, s.ifExists, s.cascade);
      ParseStatements(host, Print(lex, w, Semicolons(semicolons, End)), false) == Some([s])
  {
    var form := if s.DropCatalog? then CatalogForm else SchemaForm;
    OneStatement(host, lex, Dropped(form, s.name, s.ifExists, s.cascade), semicolons);
  }
}
