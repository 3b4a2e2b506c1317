/** Ephemeral sessions: their keys, the get / build / insert race of concurrent callers, and the
    idle-time sweep. */
module SessionStore {
  import opened AsciiText
  import opened Results
  import opened Sequences

  // ---------------------------------------------------------------- keys

  /** `uc_token_fingerprint`: "shared" without a token, else the token's 64-bit hash in hex. The hash
      is left abstract: here it is the number it gave. */
  function Fingerprint(tokenHash: Option<nat>): (f: string)
    ensures ':' !in f
  {
    if tokenHash.None? then "shared" else Hex(tokenHash.value, 16)
  }

  function EphemeralKey(uid: string, tokenHash: Option<nat>): string {
    "ephemeral:" + uid + ":" + Fingerprint(tokenHash)
  }

  /** Distinct token hashes have distinct fingerprints, and none reads like "shared". */
  lemma FingerprintInjective(a: Option<nat>, b: Option<nat>)
    requires a.Some? ==> a.value < TWO64
    requires b.Some? ==> b.value < TWO64
    requires Fingerprint(a) == Fingerprint(b)
    ensures a == b
  {
    Power16Of16();
    assert |"shared"| == 6;
    if a.Some? && b.Some? { HexInjective(a.value, b.value, 16); }
  }

  /** The key decodes uniquely whatever colons the uid holds, because the fingerprint holds none. */
  lemma KeyInjective(u: string, a: Option<nat>, v: string, b: Option<nat>)
    requires a.Some? ==> a.value < TWO64
    requires b.Some? ==> b.value < TWO64
    requires EphemeralKey(u, a) == EphemeralKey(v, b)
    ensures u == v && a == b
  {
    var f, g := Fingerprint(a), Fingerprint(b);
    AppendAssoc("ephemeral:", u, ":");
    AppendAssoc("ephemeral:", v, ":");
    AppendAssoc("ephemeral:", u + ":", f);
    AppendAssoc("ephemeral:", v + ":", g);
    AppendCancel("ephemeral:", u + ":" + f, v + ":" + g);
    LastColon(u, f, v, g);
    FingerprintInjective(a, b);
  }

  lemma LastColon(u: string, f: string, v: string, g: string)
    requires ':' !in f && ':' !in g && u + ":" + f == v + ":" + g
    ensures u == v && f == g
  {
    NoColonAfter(u, f, v, g);
    NoColonAfter(v, g, u, f);
    var s, t := u + ":" + f, v + ":" + g;
    assert s[..|u|] == u && s[|u| + 1..] == f;
    assert t[..|v|] == v && t[|v| + 1..] == g;
  }

  lemma NoColonAfter(u: string, f: string, v: string, g: string)
    requires ':' !in g && u + ":" + f == v + ":" + g
    ensures |g| <= |f|
  {
    var s, t := u + ":" + f, v + ":" + g;
    assert s[|u|] == ':';
    forall i | |v| + 1 <= i < |t| ensures t[i] != ':' {
      assert t[i] == g[i - |v| - 1];
    }
  }

  // ---------------------------------------------------------------- concurrent callers

  type Id = nat

  /** What the key fixes of a session. Attributes are those of the caller that built it. */
  datatype Session = Session(uid: string, tokenHash: Option<nat>)

  /** A caller of `ephemeral_for`: before its lookup, building after a miss, or answered. */
  datatype Caller = Asking | Building | Answered(id: Id)

  datatype State = State(
    sessions: map<string, Id>,       // the store
    built: seq<Session>,             // every session ever built, by id
    callers: seq<Caller>)

  /** What caller i asks for. */
  datatype Request = Request(uid: string, tokenHash: Option<nat>)

  predicate GoodRequest(r: Request) {
    r.tokenHash.Some? ==> r.tokenHash.value < TWO64
  }

  function KeyOf(r: Request): string {
    EphemeralKey(r.uid, r.tokenHash)
  }

  datatype Event =
    | Lookup(caller: nat)                    // get: a hit answers, a miss starts building
    | BuildAndInsert(caller: nat)            // new_session, then entry().or_insert()
    | BuildFails(caller: nat)                // new_session errs; the caller may ask again
    | Create(id: string, session: Session)   // a handshake session under a fresh uuid
    | Sweep(evicted: set<string>)

  predicate Enabled(s: State, e: Event) {
    match e
    case Lookup(i) => i < |s.callers| && s.callers[i].Asking?
    case BuildAndInsert(i) => i < |s.callers| && s.callers[i].Building?
    case BuildFails(i) => i < |s.callers| && s.callers[i].Building?
    case Create(id, _) => id !in s.sessions && ':' !in id
    case Sweep(_) => true
  }

  function Next(rs: seq<Request>, s: State, e: Event): State
    requires Enabled(s, e) && |rs| == |s.callers|
  {
    match e
    case Lookup(i) =>
      var key := KeyOf(rs[i]);
      s.(callers := s.callers[i := if key in s.sessions then Answered(s.sessions[key]) else Building])
    case BuildAndInsert(i) =>
      var key, id := KeyOf(rs[i]), |s.built|;
      var s1 := s.(built := s.built + [Session(rs[i].uid, rs[i].tokenHash)]);
      if key in s.sessions then s1.(callers := s.callers[i := Answered(s.sessions[key])])
      else s1.(sessions := s.sessions[key := id], callers := s.callers[i := Answered(id)])
    case BuildFails(i) => s.(callers := s.callers[i := Asking])
    case Create(id, session) =>
      s.(sessions := s.sessions[id := |s.built|], built := s.built + [session])
    case Sweep(evicted) => s.(sessions := s.sessions - evicted)
  }

  /** Every stored or answered session carries the uid and token its key or request names. */
  ghost predicate Inv(rs: seq<Request>, s: State) {
    && |s.callers| == |rs|
    && (forall i :: 0 <= i < |rs| ==> GoodRequest(rs[i]))
    && (forall k :: k in s.sessions ==> s.sessions[k] < |s.built|)
    && (forall k, i :: k in s.sessions && 0 <= i < |rs| && k == KeyOf(rs[i]) ==>
          s.built[s.sessions[k]] == Session(rs[i].uid, rs[i].tokenHash))
    && (forall i :: 0 <= i < |rs| && s.callers[i].Answered? ==>
          s.callers[i].id < |s.built| && s.built[s.callers[i].id] == Session(rs[i].uid, rs[i].tokenHash))
  }

  lemma KeysDiffer(id: string, r: Request)
    requires ':' !in id
    ensures KeyOf(r) != id
  {
  }

  lemma NextKeeps(rs: seq<Request>, s: State, e: Event)
    requires Inv(rs, s) && Enabled(s, e)
    ensures Inv(rs, Next(rs, s, e))
  {
    var t := Next(rs, s, e);
    match e {
      case BuildAndInsert(i) =>
        forall j | 0 <= j < |rs| && KeyOf(rs[j]) == KeyOf(rs[i])
          ensures rs[j] == rs[i]
        {
          KeyInjective(rs[j].uid, rs[j].tokenHash, rs[i].uid, rs[i].tokenHash);
        }
      case Create(id, _) =>
        forall j | 0 <= j < |rs| ensures KeyOf(rs[j]) != id { KeysDiffer(id, rs[j]); }
      case _ =>
    }
  }

  ghost predicate IsRun(rs: seq<Request>, run: seq<State>, events: seq<Event>) {
    && |run| == |events| + 1
    && run[0] == State(map[], [], seq(|rs|, i => Asking))
    && (forall i :: 0 <= i < |rs| ==> GoodRequest(rs[i]))
    && forall i :: 0 <= i < |events| ==>
         |run[i].callers| == |rs| && Enabled(run[i], events[i]) && run[i + 1] == Next(rs, run[i], events[i])
  }

  /** In every interleaving every caller is answered with a session for the uid and token it asked
      for; at most one session is stored per key by the very shape of the map. */
  lemma {:induction false} AnswersMatch(rs: seq<Request>, run: seq<State>, events: seq<Event>, n: nat)
    requires IsRun(rs, run, events) && n < |run|
    ensures Inv(rs, run[n])
  {
    if n > 0 {
      AnswersMatch(rs, run, events, n - 1);
      NextKeeps(rs, run[n - 1], events[n - 1]);
    }
  }

  /** Without a sweep a stored session stays stored under its key. */
  lemma {:induction false} StaysStored(rs: seq<Request>, run: seq<State>, events: seq<Event>, m: nat, n: nat,
                                       key: string)
    requires IsRun(rs, run, events) && m <= n < |run| && key in run[m].sessions
    requires forall i :: m <= i < n ==> !events[i].Sweep?
    ensures key in run[n].sessions && run[n].sessions[key] == run[m].sessions[key]
    decreases n - m
  {
    if m < n {
      StaysStored(rs, run, events, m, n - 1, key);
      assert run[n] == Next(rs, run[n - 1], events[n - 1]);
    }
  }

  /** The step in which a caller is answered leaves the answer stored under its key. */
  predicate AnsweredAt(run: seq<State>, m: nat, i: nat) {
    0 < m < |run| && i < |run[m].callers| == |run[m - 1].callers| &&
    run[m].callers[i].Answered? && !run[m - 1].callers[i].Answered?
  }

  lemma AnswerIsStored(rs: seq<Request>, run: seq<State>, events: seq<Event>, m: nat, i: nat)
    requires IsRun(rs, run, events) && AnsweredAt(run, m, i) && i < |rs|
    ensures KeyOf(rs[i]) in run[m].sessions && run[m].sessions[KeyOf(rs[i])] == run[m].callers[i].id
    ensures !events[m - 1].Sweep?
  {
  }

  /** Callers with the same uid and token whose answers have no sweep between them get the same
      session, however their lookups and builds overlap. */
  lemma OverlappingCallersShare(rs: seq<Request>, run: seq<State>, events: seq<Event>,
                                i: nat, m: nat, j: nat, n: nat)
    requires IsRun(rs, run, events) && i < |rs| && j < |rs| && rs[i] == rs[j]
    requires AnsweredAt(run, m, i) && AnsweredAt(run, n, j) && m <= n
    requires forall k :: m <= k < n ==> !events[k].Sweep?
    ensures run[m].callers[i].id == run[n].callers[j].id
  {
    AnswerIsStored(rs, run, events, m, i);
    AnswerIsStored(rs, run, events, n, j);
    StaysStored(rs, run, events, m, n, KeyOf(rs[i]));
  }

  // ---------------------------------------------------------------- resolving a request

  /** The session the last handshake under an id made. */
  function LastHandshake(past: seq<Event>, id: string): Option<Session> {
    if past == [] then None
    else
      var e := past[|past| - 1];
      if e.Create? && e.id == id then Some(e.session) else LastHandshake(past[..|past| - 1], id)
  }

  /** A stored id is an ephemeral key somebody asked under, or a handshake's, whose session is that
      handshake's. */
  ghost predicate Known(rs: seq<Request>, s: State, past: seq<Event>, id: string)
    requires id in s.sessions && s.sessions[id] < |s.built|
  {
    if ':' in id then exists i :: 0 <= i < |rs| && id == KeyOf(rs[i])
    else LastHandshake(past, id) == Some(s.built[s.sessions[id]])
  }

  lemma {:induction false} KnownIds(rs: seq<Request>, run: seq<State>, events: seq<Event>, n: nat, id: string)
    requires IsRun(rs, run, events) && n < |run| && id in run[n].sessions
    ensures run[n].sessions[id] < |run[n].built| && Known(rs, run[n], events[..n], id)
  {
    AnswersMatch(rs, run, events, n);
    if n > 0 {
      var s, t, e, past := run[n - 1], run[n], events[n - 1], events[..n - 1];
      AnswersMatch(rs, run, events, n - 1);
      SplitLast(events[..n], past, e);
      assert events[..n][..n - 1] == past;
      assert t == Next(rs, s, e);
      if id in s.sessions && s.sessions[id] == t.sessions[id] {
        KnownIds(rs, run, events, n - 1, id);
        assert t.built[t.sessions[id]] == s.built[s.sessions[id]];
      } else if e.BuildAndInsert? {
        ColonInKey(rs[e.caller]);
        assert id == KeyOf(rs[e.caller]);
      }
    }
  }

  lemma ColonInKey(r: Request)
    ensures ':' in KeyOf(r)
  {
    assert KeyOf(r)[9] == ("ephemeral:" + (r.uid + ":" + Fingerprint(r.tokenHash)))[9] == ':';
  }

  /** `resolve_session`: the session of the id the request names, when it is stored; otherwise the
      ephemeral one of its principal and token, which `AnswersMatch` says carries exactly those. */
  function ResolvedSession(s: State, id: Option<string>, r: Request): Session
    requires id.Some? && id.value in s.sessions ==> s.sessions[id.value] < |s.built|
  {
    if id.Some? && id.value in s.sessions then s.built[s.sessions[id.value]] else Session(r.uid, r.tokenHash)
  }

  /** In every reachable state the resolved session is of the request's own principal and token exactly
      when the request names no stored id, or its own ephemeral key, or the id of a handshake made with
      that principal and token. */
  lemma ResolvesOwnIff(rs: seq<Request>, run: seq<State>, events: seq<Event>, n: nat, id: Option<string>, r: Request)
    requires IsRun(rs, run, events) && n < |run| && GoodRequest(r)
    ensures id.Some? && id.value in run[n].sessions ==> run[n].sessions[id.value] < |run[n].built|
    ensures ResolvedSession(run[n], id, r) == Session(r.uid, r.tokenHash) <==>
      || id.None? || id.value !in run[n].sessions || id.value == KeyOf(r)
      || (':' !in id.value && LastHandshake(events[..n], id.value) == Some(Session(r.uid, r.tokenHash)))
  {
    AnswersMatch(rs, run, events, n);
    if id.Some? && id.value in run[n].sessions {
      KnownIds(rs, run, events, n, id.value);
      if ':' in id.value {
        var i :| 0 <= i < |rs| && id.value == KeyOf(rs[i]);
        if id.value == KeyOf(r) { KeyInjective(rs[i].uid, rs[i].tokenHash, r.uid, r.tokenHash); }
      } else {
        ColonInKey(r);
      }
    }
  }

  // ---------------------------------------------------------------- idle time

  const MS: nat := 1_000_000   // nanoseconds in a millisecond
  const SECOND: nat := 1000 * MS

  /** A stored session's clock: when it was created, and the stored millisecond count. */
  datatype Clock = Clock(createdAt: nat, lastUsedMs: nat)

  /** `touch` at time `now`: elapsed time truncated to milliseconds. */
  function Touched(c: Clock, now: nat): Clock
    requires c.createdAt <= now
  {
    c.(lastUsedMs := (now - c.createdAt) / MS)
  }

  /** `idle` at time `now`, a saturating subtraction. */
  function Idle(c: Clock, now: nat): nat
    requires c.createdAt <= now
  {
    if c.lastUsedMs * MS <= now - c.createdAt then now - c.createdAt - c.lastUsedMs * MS else 0
  }

  /** Truncation makes a session look idle for longer than it was, but by less than a millisecond. */
  lemma IdleError(c: Clock, used: nat, now: nat)
    requires c.createdAt <= used <= now
    ensures now - used <= Idle(Touched(c, used), now) < now - used + MS
  {
  }

  /** `max(ttl / 4, 30 s)`. */
  function SweepInterval(ttl: nat): (p: nat)
    ensures p > 0 && p >= ttl / 4
  {
    if ttl / 4 >= 30 * SECOND then ttl / 4 else 30 * SECOND
  }

  /** A sweep at `now` evicts every session idle for the ttl and none used within ttl - 1 ms; between
      the two the answer depends on the truncated fraction. */
  lemma SweepBounds(c: Clock, used: nat, now: nat, ttl: nat)
    requires c.createdAt <= used <= now
    ensures now - used >= ttl ==> !(Idle(Touched(c, used), now) < ttl)
    ensures now - used + MS <= ttl ==> Idle(Touched(c, used), now) < ttl
  {
  }

  /** With ticks on time, the first tick that finds the session idle for the ttl comes within one
      sweep interval: a session unused since `used` is gone by used + ttl + max(ttl / 4, 30 s). */
  lemma EvictedInTime(c: Clock, used: nat, firstTick: nat, ttl: nat) returns (tick: nat)
    requires c.createdAt <= used && firstTick <= used + ttl
    ensures exists n: nat :: tick == firstTick + n * SweepInterval(ttl)
    ensures used + ttl <= tick < used + ttl + SweepInterval(ttl)
    ensures !(Idle(Touched(c, used), tick) < ttl)
  {
    var p := SweepInterval(ttl);
    var n := 0;
    tick := firstTick;
    while tick < used + ttl
      invariant tick == firstTick + n * p
      invariant tick < used + ttl + p
      decreases used + ttl - tick
    {
      assert (n + 1) * p == n * p + p;
      n, tick := n + 1, tick + p;
    }
    SweepBounds(c, used, tick, ttl);
  }

  /** A session and the creation times of the statements it holds. */
  datatype Live = Live(clock: Clock, statements: map<nat, nat>)

  class Store {
    const ttl: nat
    var live: map<string, Live>

    /** No stored time lies in the future. */
    ghost predicate Valid(now: nat)
      reads this
    {
      forall k :: k in live ==>
        && live[k].clock.createdAt <= now
        && live[k].clock.lastUsedMs * MS <= now - live[k].clock.createdAt
        && forall h :: h in live[k].statements ==> live[k].statements[h] <= now
    }

    constructor (ttl: nat)
      ensures this.ttl == ttl && live == map[]
    {
      this.ttl, live := ttl, map[];
    }

    /** Inserts a session whose timer has not been touched yet. */
    method Insert(id: string, now: nat)
      requires Valid(now)
      modifies this
      ensures Valid(now) && live == old(live)[id := Live(Clock(now, 0), map[])]
    {
      live := live[id := Live(Clock(now, 0), map[])];
    }

    /** `get`: the session, with its idle timer reset. */
    method Get(id: string, now: nat) returns (found: bool)
      requires Valid(now)
      modifies this
      ensures Valid(now) && found == (id in old(live))
      ensures live == if found then old(live)[id := old(live)[id].(clock := Touched(old(live)[id].clock, now))]
                      else old(live)
    {
      found := id in live;
      if found {
        live := live[id := live[id].(clock := Touched(live[id].clock, now))];
      }
    }

    method Plan(id: string, handle: nat, now: nat)
      requires Valid(now) && id in live
      modifies this
      ensures Valid(now)
      ensures live == old(live)[id := old(live)[id].(statements := old(live)[id].statements[handle := now])]
    {
      live := live[id := live[id].(statements := live[id].statements[handle := now])];
    }

    /** `sweep`: drops the sessions idle for the ttl, and from the others the statements that old. */
    method Sweep(now: nat)
      requires Valid(now)
      modifies this
      ensures Valid(now)
      ensures forall k :: k in live <==> k in old(live) && Idle(old(live)[k].clock, now) < ttl
      ensures forall k :: k in live ==> live[k].clock == old(live)[k].clock
      ensures forall k, h :: k in live ==>
        (h in live[k].statements <==> h in old(live)[k].statements && now - old(live)[k].statements[h] < ttl)
      ensures forall k, h :: k in live && h in live[k].statements ==>
        live[k].statements[h] == old(live)[k].statements[h] && now - live[k].statements[h] < ttl
    {
      var kept := map k | k in live && Idle(live[k].clock, now) < ttl :: live[k];
      live := map k | k in kept ::
        Live(kept[k].clock,
             map h | h in kept[k].statements && now - kept[k].statements[h] < ttl :: kept[k].statements[h]);
    }
  }
}
