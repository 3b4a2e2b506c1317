/** Fresh environment ids: a slug of the display name, with the first free numeric suffix. */
module EnvIds {
  import Decimal
  import opened Results
  import opened Sequences

  predicate IsAlphanumeric(c: char) {
    '0' <= c <= '9' || 'a' <= c <= 'z' || 'A' <= c <= 'Z'
  }

  /** What an id may be made of: it is a directory name and part of a key's name. */
  predicate Safe(id: string) {
    id != "" && forall i :: 0 <= i < |id| ==> IsAlphanumeric(id[i]) || id[i] == '-'
  }

  function Dashed(s: string): string {
    seq(|s|, i requires 0 <= i < |s| => if IsAlphanumeric(s[i]) then s[i] else '-')
  }

  /** `trim_matches('-')`. */
  function TrimDashes(s: string): (r: string)
    ensures forall c <- r :: c in s
    ensures r == "" || (r[0] != '-' && r[|r| - 1] != '-')
    decreases |s|
  {
    if s == "" then ""
    else if s[0] == '-' then TrimDashes(s[1..])
    else if s[|s| - 1] == '-' then TrimDashes(s[..|s| - 1])
    else s
  }

  /** What trimming leaves: a middle piece of the text, with nothing but dashes around it. */
  lemma {:induction false} TrimsDashesOnly(s: string) returns (i: nat, j: nat)
    ensures i <= j <= |s| && TrimDashes(s) == s[i..j]
    ensures forall k :: 0 <= k < |s| && !(i <= k < j) ==> s[k] == '-'
    decreases |s|
  {
    if s == "" {
      i, j := 0, 0;
    } else if s[0] == '-' {
      i, j := TrimsDashesOnly(s[1..]);
      assert s[1..][i..j] == s[i + 1..j + 1];
      forall k | 0 <= k < |s| && !(i + 1 <= k < j + 1) ensures s[k] == '-' {
        if k > 0 { assert s[1..][k - 1] == s[k]; }
      }
      i, j := i + 1, j + 1;
    } else if s[|s| - 1] == '-' {
      i, j := TrimsDashesOnly(s[..|s| - 1]);
      assert s[..|s| - 1][i..j] == s[i..j];
      forall k | 0 <= k < |s| && !(i <= k < j) ensures s[k] == '-' {
        if k < |s| - 1 { assert s[..|s| - 1][k] == s[k]; }
      }
    } else {
      i, j := 0, |s|;
    }
  }

  /** The id wanted for a name, given trimmed and in lower case. */
  function Base(lowered: string): (base: string)
    ensures Safe(base) && base[0] != '-' && base[|base| - 1] != '-'
  {
    var slug := TrimDashes(Dashed(lowered));
    if slug == "" then "env"
    else
      assert forall i :: 0 <= i < |slug| ==> slug[i] in Dashed(lowered);
      slug
  }

  /** A name that could be an id is its own base, so taking the base again changes nothing. */
  lemma BaseKeepsIds(name: string)
    requires Safe(name) && name[0] != '-' && name[|name| - 1] != '-'
    ensures Base(name) == name
  {
    assert Dashed(name) == name;
  }

  /** The candidates in the order they are tried: the base, then `base-2`, `base-3` and so on. */
  function Candidate(base: string, k: nat): (id: string)
    ensures Safe(base) ==> Safe(id)
  {
    if k == 0 then base else base + "-" + Decimal.Print(k + 1)
  }

  lemma CandidatesDiffer(base: string, j: nat, k: nat)
    requires Candidate(base, j) == Candidate(base, k)
    ensures j == k
  {
    if j > 0 && k > 0 {
      AppendAssoc(base, "-", Decimal.Print(j + 1));
      AppendAssoc(base, "-", Decimal.Print(k + 1));
      AppendCancel(base + "-", Decimal.Print(j + 1), Decimal.Print(k + 1));
      Decimal.PrintInjective(j + 1, k + 1);
    }
  }

  /** The first `n` candidates. */
  ghost function Tried(base: string, n: nat): set<string> {
    set k | 0 <= k < n :: Candidate(base, k)
  }

  lemma {:induction false} TriedCounts(base: string, n: nat)
    ensures |Tried(base, n)| == n
  {
    if n > 0 {
      TriedCounts(base, n - 1);
      forall k | 0 <= k < n - 1 ensures Candidate(base, k) != Candidate(base, n - 1) {
        if Candidate(base, k) == Candidate(base, n - 1) { CandidatesDiffer(base, k, n - 1); }
      }
      assert Tried(base, n) == Tried(base, n - 1) + {Candidate(base, n - 1)};
    } else {
      assert Tried(base, n) == {};
    }
  }

  lemma {:induction false} FewerElements(s: seq<string>)
    ensures |Elements(s)| <= |s|
  {
    if s != [] {
      var init := s[..|s| - 1];
      FewerElements(init);
      assert Elements(s) == Elements(init) + {s[|s| - 1]};
    } else {
      assert Elements(s) == {};
    }
  }

  lemma SubsetCount(a: set<string>, b: set<string>)
    requires a <= b
    ensures |a| <= |b|
  {
    assert b == a + (b - a);
  }

  /** By the pigeonhole principle: while all of the first `n` candidates are taken, `n` is at most the
      number of ids in use. */
  lemma TakenAtMost(base: string, existing: seq<string>, n: nat)
    requires forall k :: 0 <= k < n ==> Candidate(base, k) in existing
    ensures n <= |existing|
  {
    TriedCounts(base, n);
    FewerElements(existing);
    SubsetCount(Tried(base, n), Elements(existing));
  }

  /** The first candidate not in use: the search ends within one more candidate than there are ids. */
  ghost predicate FirstFree(base: string, existing: seq<string>, id: string) {
    exists k :: 0 <= k <= |existing| && IsFirst(base, existing, id, k)
  }

  ghost predicate IsFirst(base: string, existing: seq<string>, id: string, k: nat) {
    id == Candidate(base, k) && id !in existing && forall j :: 0 <= j < k ==> Candidate(base, j) in existing
  }

  method AllocateEnvId(lowered: string, existing: seq<string>) returns (id: string)
    ensures id !in existing && Safe(id)
    ensures FirstFree(Base(lowered), existing, id)
  {
    var base := Base(lowered);
    if base !in existing {
      assert IsFirst(base, existing, base, 0);
      return base;
    }
    var n := 2;
    while true
      invariant n >= 2 && forall k :: 0 <= k < n - 1 ==> Candidate(base, k) in existing
      decreases |existing| + 2 - n
    {
      TakenAtMost(base, existing, n - 1);
      var candidate := base + "-" + Decimal.Print(n);
      assert candidate == Candidate(base, n - 1);
      if candidate !in existing {
        assert IsFirst(base, existing, candidate, n - 1);
        return candidate;
      }
      n := n + 1;
    }
  }

  /** The id does not depend on how it is searched for: there is one first free candidate. */
  lemma FirstFreeUnique(base: string, existing: seq<string>, a: string, b: string)
    requires FirstFree(base, existing, a) && FirstFree(base, existing, b)
    ensures a == b
  {
  }

  // ---------------------------------------------------------------- the registry

  datatype Environment = Environment(id: string, name: string, modules: seq<string>, observability: bool)

  predicate IdsDistinct(envs: seq<Environment>) {
    forall i, j :: 0 <= i < j < |envs| ==> envs[i].id != envs[j].id
  }

  function Ids(envs: seq<Environment>): seq<string> {
    seq(|envs|, i requires 0 <= i < |envs| => envs[i].id)
  }

  datatype CreateError = EmptyName | Io

  /** The registry file: not there yet, holding the environments, or left unreadable by a write that was
      cut short. */
  datatype File = Absent | Written(environments: seq<Environment>) | Torn

  /** What the file says. A fresh install has no environments; an unreadable file is an error, and is
      never taken for an empty one. */
  function Listed(f: File): Option<seq<Environment>> {
    match f
    case Absent => Some([])
    case Written(environments) => Some(environments)
    case Torn => None
  }

  /** The environment a creation appends. */
  ghost predicate Appended(listed: Option<seq<Environment>>, name: string, lowered: string, env: Environment) {
    && listed.Some? && env == Environment(env.id, name, [], false)
    && env.id !in Ids(listed.value) && FirstFree(Base(lowered), Ids(listed.value), env.id)
  }

  function WithModules(modules: seq<string>): Environment -> Environment {
    (e: Environment) => e.(modules := modules)
  }

  function WithObservability(enabled: bool): Environment -> Environment {
    (e: Environment) => e.(observability := enabled)
  }

  class Registry {
    var file: File

    ghost predicate Valid()
      reads this
    {
      file.Written? ==>
        IdsDistinct(file.environments) && forall e <- file.environments :: Safe(e.id)
    }

    constructor ()
      ensures Valid() && file == Absent
    {
      file := Absent;
    }

    method ReadEnvironments() returns (r: Option<seq<Environment>>)
      ensures r.None? || r == Listed(file)
    {
      if * { return None; }
      r := Listed(file);
    }

    /** Writing truncates the file first, so a failed write leaves the old file or an unreadable one. */
    method WriteEnvironments(environments: seq<Environment>) returns (ok: bool)
      modifies this
      ensures if ok then file == Written(environments) else file == old(file) || file == Torn
    {
      ok := *;
      if ok {
        file := Written(environments);
      } else if * {
        file := Torn;
      }
    }

    /** `name` is already trimmed and `lowered` is it in lower case. A success appends one environment
        whose id nobody has; a failure leaves the file as it was or unreadable, and then nothing is ever
        created over it. */
    method Create(name: string, lowered: string) returns (r: Result<Environment, CreateError>)
      requires Valid()
      modifies this
      ensures Valid()
      ensures name == "" ==> r == Err(EmptyName)
      ensures name == "" || old(file).Torn? ==> r.Err? && file == old(file)
      ensures r.Err? ==> file == old(file) || file == Torn
      ensures r.Ok? ==>
        Appended(old(Listed(file)), name, lowered, r.value) && file == Written(old(Listed(file)).value + [r.value])
    {
      if name == "" { return Err(EmptyName); }
      var read := ReadEnvironments();
      if read.None? { return Err(Io); }
      var envs := read.value;
      var ids := Ids(envs);
      var id := AllocateEnvId(lowered, ids);
      if * { return Err(Io); }   // the directories cannot be made
      var env := Environment(id, name, [], false);
      forall i | 0 <= i < |envs| ensures envs[i].id != id {
        assert ids[i] == envs[i].id;
      }
      var ok := WriteEnvironments(envs + [env]);
      if !ok { return Err(Io); }
      return Ok(env);
    }

    /** Modules the backend cannot resolve, and unknown ids, change nothing; a success changes one
        environment's modules, and no id. */
    method SetModules(id: string, modules: seq<string>, known: string -> bool) returns (ok: bool)
      requires Valid()
      modifies this
      ensures Valid()
      ensures ok ==> (forall m <- modules :: known(m)) && old(Listed(file)).Some? && id in Ids(old(Listed(file)).value)
      ensures ok ==> file == Written(Changed(old(Listed(file)).value, id, WithModules(modules)))
      ensures !ok ==> file == old(file) || (file == Torn && forall m <- modules :: known(m))
    {
      if exists m <- modules :: !known(m) { return false; }
      ok := Change(id, WithModules(modules));
    }

    method SetObservability(id: string, enabled: bool) returns (ok: bool)
      requires Valid()
      modifies this
      ensures Valid()
      ensures ok ==> old(Listed(file)).Some? && id in Ids(old(Listed(file)).value)
      ensures ok ==> file == Written(Changed(old(Listed(file)).value, id, WithObservability(enabled)))
      ensures !ok ==> file == old(file) || file == Torn
    {
      ok := Change(id, WithObservability(enabled));
    }

    /** Reads the file, changes the environment with this id, and writes the file. */
    method Change(id: string, change: Environment -> Environment) returns (ok: bool)
      requires Valid() && forall e :: change(e).id == e.id
      modifies this
      ensures Valid()
      ensures ok ==> old(Listed(file)).Some? && id in Ids(old(Listed(file)).value)
      ensures ok ==> file == Written(Changed(old(Listed(file)).value, id, change))
      ensures !ok ==> file == old(file) || file == Torn
    {
      var read := ReadEnvironments();
      if read.None? { return false; }
      var envs := read.value;
      for i := 0 to |envs|
        invariant file == old(file)
        invariant forall j :: 0 <= j < i ==> envs[j].id != id
      {
        if envs[i].id == id {
          assert Ids(envs)[i] == id;
          ChangedIsUpdate(envs, i, change);
          ok := WriteEnvironments(envs[i := change(envs[i])]);
          return;
        }
      }
      return false;
    }
  }

  /** The environments with the one of this id changed. */
  function Changed(envs: seq<Environment>, id: string, change: Environment -> Environment): seq<Environment> {
    seq(|envs|, i requires 0 <= i < |envs| => if envs[i].id == id then change(envs[i]) else envs[i])
  }

  /** Ids being distinct, changing the one found is changing all that have the id; and no id changes. */
  lemma ChangedIsUpdate(envs: seq<Environment>, i: nat, change: Environment -> Environment)
    requires IdsDistinct(envs) && i < |envs| && change(envs[i]).id == envs[i].id
    ensures envs[i := change(envs[i])] == Changed(envs, envs[i].id, change)
    ensures Ids(Changed(envs, envs[i].id, change)) == Ids(envs)
  {
  }
}
