/** The key-encryption key of an environment: two secret stores, a record file, and the commands that
    mint the key, move it between the stores and report on it. */
module KeyVault {
  import opened Results

  type Key = string

  datatype Provider = Keychain | Remote
  datatype Record = Record(provider: Provider, keyId: string, biometric: bool)
  datatype Read = Found(key: Key) | Missing | Error
  datatype Status = Unconfigured | InKeychain | InBiometric | InRemote | Unavailable
  datatype Failure = Refused | StoreFailed

  /** Everything that outlives the process. */
  datatype Vault = Vault(plain: Option<Key>, bio: Option<Key>, record: Option<Record>)

  // ---------------------------------------------------------------- every store operation

  ghost predicate Fresh(v: Vault) {
    v.plain.None? && v.bio.None?
  }

  /** Some store holds a key, and every store that holds one holds k. */
  ghost predicate Holds(v: Vault, k: Key) {
    && (v.plain.Some? || v.bio.Some?)
    && (v.plain.Some? ==> v.plain.value == k)
    && (v.bio.Some? ==> v.bio.value == k)
  }

  ghost predicate HoldsOne(v: Vault) {
    exists k :: Holds(v, k)
  }

  /** The effects a single store operation may have: none, the first mint, a copy of the key from one
      store to the other, the removal of a key the other store holds too, or a change of the record. */
  ghost predicate Step(v: Vault, v': Vault) {
    || v' == v
    || (Fresh(v) && v'.plain.Some? && v' == v.(plain := v'.plain))
    || (v.bio.Some? && v' == v.(plain := v.bio))
    || (v.plain.Some? && v' == v.(bio := v.plain))
    || (v.bio.Some? && v' == v.(plain := None))
    || (v.plain.Some? && v' == v.(bio := None))
    || v' == v.(record := v'.record)
  }

  /** Consecutive states of the vault, one store operation apart. */
  ghost predicate Chain(trace: seq<Vault>) {
    forall i :: 0 <= i < |trace| - 1 ==> Step(trace[i], trace[i + 1])
  }

  /** Once a key is minted it is held, unchanged, in every later state, whichever operations fail and
      wherever the chain is cut. */
  lemma {:induction false} NeverLost(trace: seq<Vault>, i: nat, j: nat, k: Key)
    requires Chain(trace) && i <= j < |trace| && Holds(trace[i], k)
    ensures Holds(trace[j], k)
    decreases j
  {
    if i < j {
      NeverLost(trace, i, j - 1, k);
      assert Step(trace[j - 1], trace[j]);
    }
  }

  /** From empty stores there is at most one key: any two keys ever held are the same. */
  lemma MintedOnce(trace: seq<Vault>, i: nat, j: nat, k: Key, l: Key)
    requires Chain(trace) && i < |trace| && j < |trace|
    requires Holds(trace[i], k) && Holds(trace[j], l)
    ensures k == l
  {
    if i <= j { NeverLost(trace, i, j, k); } else { NeverLost(trace, j, i, l); }
  }

  /** From empty stores every state holds no key or exactly one. */
  lemma {:induction false} NeverTwoKeys(trace: seq<Vault>, j: nat)
    requires Chain(trace) && j < |trace| && Fresh(trace[0])
    ensures Fresh(trace[j]) || HoldsOne(trace[j])
  {
    if j > 0 {
      NeverTwoKeys(trace, j - 1);
      assert Step(trace[j - 1], trace[j]);
      if !Fresh(trace[j]) {
        if Fresh(trace[j - 1]) {
          assert Holds(trace[j], trace[j].plain.value);
        } else {
          var k :| Holds(trace[j - 1], k);
          NeverLost(trace, j - 1, j, k);
        }
      }
    }
  }

  /** A run cut short and resumed from the state it was cut in is a run. */
  lemma ResumedRun(a: seq<Vault>, cut: nat, b: seq<Vault>)
    requires Chain(a) && Chain(b) && 0 < cut <= |a| && b != [] && b[0] == a[cut - 1]
    ensures Chain(a[..cut] + b[1..])
  {
  }

  // ---------------------------------------------------------------- record and stores

  predicate Flag(v: Vault) {
    v.record.Some? && v.record.value.biometric
  }

  /** The record tells the truth: with the biometric flag the biometric store holds the key, without
      it the plain store does as soon as there is a key. */
  ghost predicate RecordAgrees(v: Vault) {
    if Fresh(v) then !Flag(v) else if Flag(v) then v.bio.Some? else v.plain.Some?
  }

  /** What reading the record gives: the record, or nothing when the file cannot be read or parsed,
      which the code does not tell from a record that is not there. */
  predicate Seen(v: Vault, seen: Option<Record>) {
    seen == v.record || seen.None?
  }

  /** What `status` answers when it saw `seen` and the plain store answers `probe`. */
  function StatusOf(seen: Option<Record>, probe: Read): Status {
    if seen.Some? && seen.value.provider.Remote? then InRemote
    else if seen.Some? && seen.value.biometric then InBiometric
    else match probe
      case Found(_) => InKeychain
      case Missing => Unconfigured
      case Error => Unavailable
  }

  predicate RemoteRecorded(v: Vault) {
    v.record.Some? && v.record.value.provider.Remote?
  }

  predicate Probed(v: Vault, probe: Read) {
    probe.Error? || probe == if v.plain.Some? then Found(v.plain.value) else Missing
  }

  /** A status is true of the vault: a keychain status names a store that holds the key, and
      "unconfigured" means that no key exists anywhere. */
  ghost predicate Truthful(v: Vault, probe: Read, s: Status) {
    match s
    case InRemote => RemoteRecorded(v)
    case InBiometric => !RemoteRecorded(v) && v.bio.Some?
    case InKeychain => !RemoteRecorded(v) && v.plain.Some?
    case Unconfigured => !RemoteRecorded(v) && Fresh(v)
    case Unavailable => !RemoteRecorded(v) && probe.Error?
  }

  /** While the record agrees with the stores, the status is true whenever the record was read, without
      ever reading the biometric store. When it could not be read, the status is true exactly if no
      remote provider is recorded and the plain store, found empty, is not hiding a biometric key. */
  lemma StatusTellsTheTruth(v: Vault, seen: Option<Record>, probe: Read)
    requires RecordAgrees(v) && Seen(v, seen) && Probed(v, probe)
    ensures Truthful(v, probe, StatusOf(seen, probe)) <==>
      seen == v.record || (!RemoteRecorded(v) && (probe.Missing? ==> v.bio.None?))
  {
    if probe.Missing? && v.bio.Some? { assert !Fresh(v); }
  }

  // ---------------------------------------------------------------- what a record read that fails does

  /** The lock in front of `configure`: a recorded provider cannot be changed. */
  predicate Locked(seen: Option<Record>, provider: Provider) {
    seen.Some? && seen.value.provider != provider
  }

  /** The vault once `configure` has written its record; `seen` is what it read of the old one. */
  function Configured(v: Vault, envId: string, provider: Provider, seen: Option<Record>): Vault {
    v.(record := Some(Record(provider, envId, seen.Some? && seen.value.biometric)))
  }

  /** Configuring keeps the record in agreement exactly unless it could not read a record that had the
      biometric flag on while the plain store held no copy of the key. */
  lemma ConfigureAgreesIff(v: Vault, envId: string, provider: Provider, seen: Option<Record>)
    requires RecordAgrees(v) && Seen(v, seen)
    ensures RecordAgrees(Configured(v, envId, provider, seen)) <==> !(Flag(v) && seen.None? && v.plain.None?)
  {
  }

  /** A recorded provider survives every configuration that gets past the lock, exactly unless the lock
      could not read it and another one was asked for. */
  lemma ProviderLockedIff(v: Vault, envId: string, provider: Provider, lock: Option<Record>, seen: Option<Record>)
    requires v.record.Some? && Seen(v, lock) && Seen(v, seen)
    ensures Locked(lock, provider) || Configured(v, envId, provider, seen).record.value.provider
      == v.record.value.provider
      <==> !(lock.None? && provider != v.record.value.provider)
  {
  }

  /** Minting into empty stores keeps a record in agreement, whose flag can only be off then. */
  lemma MintAgrees(v: Vault, plain: Option<Key>)
    requires RecordAgrees(v) && (plain == v.plain || (Fresh(v) && plain.Some?))
    ensures RecordAgrees(v.(plain := plain))
  {
  }

  /** Where both fail: one unread record and a key that is only in the biometric store. Nothing is lost,
      but the new record denies the key, `status` calls the environment unconfigured, and the provider
      can be changed. */
  lemma UnreadRecordMisleads(envId: string, k: Key)
    ensures var v := Vault(None, Some(k), Some(Record(Keychain, envId, true)));
      var w := Configured(v, envId, Keychain, None);
      && RecordAgrees(v) && Holds(v, k) && Holds(w, k) && !RecordAgrees(w)
      && StatusOf(w.record, Missing) == Unconfigured && !Truthful(w, Missing, Unconfigured)
      && StatusOf(None, Missing) == Unconfigured && !Truthful(v, Missing, Unconfigured)
      && !Locked(None, Remote) && RemoteRecorded(Configured(v, envId, Remote, None))
  {
    var v := Vault(None, Some(k), Some(Record(Keychain, envId, true)));
    assert !Fresh(v);
  }

  datatype Command =
    | EnsureKek(random: Option<Key>)
    | Configure(provider: Provider, random: Option<Key>)
    | SetBiometric(enabled: bool, random: Option<Key>)

  class KeyStore {
    const envId: string
    const biometricSupported: bool
    var plain: Option<Key>
    var bio: Option<Key>
    var record: Option<Record>

    /** Every state since the environment was created, one per store operation. */
    ghost var trace: seq<Vault>
    /** Whether some write of the record has failed or was cut short. */
    ghost var recordSpoiled: bool
    /** Whether a command has acted on a record it could not read. */
    ghost var recordUnread: bool

    ghost function Now(): Vault
      reads this
    {
      Vault(plain, bio, record)
    }

    ghost predicate Valid()
      reads this
    {
      && trace != [] && trace[|trace| - 1] == Now() && Chain(trace)
      && Fresh(trace[0])
      && (Fresh(Now()) || HoldsOne(Now()))
      && (!biometricSupported ==> bio.None?)
      && (record.Some? ==> record.value.keyId == envId)
    }

    constructor (envId: string, biometricSupported: bool)
      ensures Valid() && Fresh(Now()) && record.None? && !recordSpoiled && !recordUnread
      ensures this.envId == envId && this.biometricSupported == biometricSupported
    {
      this.envId, this.biometricSupported := envId, biometricSupported;
      plain, bio, record := None, None, None;
      trace, recordSpoiled, recordUnread := [Vault(None, None, None)], false, false;
    }

    // Each of the following is one operation of a secret store or of the record file. It may fail,
    // and a failed operation has no effect. A process stopped between two operations leaves the
    // stores as a failure of the next operation would, since every failure ends the command.

    method PlainRead() returns (r: Read)
      ensures r.Error? || r == if plain.Some? then Found(plain.value) else Missing
    {
      if * { return Error; }
      r := if plain.Some? then Found(plain.value) else Missing;
    }

    method BiometricRead() returns (r: Read)
      ensures r.Error? || r == if bio.Some? then Found(bio.value) else Missing
    {
      if * { return Error; }
      r := if bio.Some? then Found(bio.value) else Missing;
    }

    /** Reading the record: a file that cannot be read or parsed counts as no record. */
    method ReadRecord() returns (seen: Option<Record>)
      ensures Seen(Now(), seen)
    {
      if * { return None; }
      seen := record;
    }

    method PlainWrite(k: Key) returns (ok: bool)
      requires Valid() && (Fresh(Now()) || Holds(Now(), k))
      modifies this`plain, this`trace
      ensures Valid() && old(trace) <= trace
      ensures plain == if ok then Some(k) else old(plain)
    {
      ok := *;
      if ok { plain := Some(k); }
      Log();
    }

    method PlainDelete() returns (ok: bool)
      requires Valid() && bio.Some?
      modifies this`plain, this`trace
      ensures Valid() && old(trace) <= trace
      ensures plain == if ok then None else old(plain)
    {
      ok := *;
      if ok { plain := None; }
      Log();
    }

    method BiometricWrite(k: Key) returns (ok: bool)
      requires Valid() && biometricSupported && Holds(Now(), k)
      modifies this`bio, this`trace
      ensures Valid() && old(trace) <= trace
      ensures bio == if ok then Some(k) else old(bio)
    {
      ok := *;
      if ok { bio := Some(k); }
      Log();
    }

    method BiometricDelete() returns (ok: bool)
      requires Valid() && plain.Some?
      modifies this`bio, this`trace
      ensures Valid() && old(trace) <= trace
      ensures bio == if ok then None else old(bio)
    {
      ok := *;
      if ok { bio := None; }
      Log();
    }

    /** Writing the record truncates the file first, so a failed write leaves the old record or an
        unreadable file, which reads as no record. */
    method WriteRecord(r: Record) returns (ok: bool)
      requires Valid() && r.keyId == envId
      modifies this`record, this`trace, this`recordSpoiled
      ensures Valid() && old(trace) <= trace
      ensures if ok then record == Some(r) && recordSpoiled == old(recordSpoiled)
              else (record == old(record) || record.None?) && recordSpoiled
    {
      ok := *;
      if ok {
        record := Some(r);
      } else {
        if * { record := None; }
        recordSpoiled := true;
      }
      Log();
    }

    ghost method Log()
      requires trace != [] && Chain(trace) && Fresh(trace[0]) && Step(trace[|trace| - 1], Now())
      requires Fresh(trace[|trace| - 1]) || HoldsOne(trace[|trace| - 1])
      requires !biometricSupported ==> bio.None?
      requires record.Some? ==> record.value.keyId == envId
      modifies this`trace
      ensures Valid() && old(trace) <= trace
    {
      trace := trace + [Now()];
      NeverTwoKeys(trace, |trace| - 1);
    }

    // ---------------------------------------------------------------- the commands

    /** `store::read`: the biometric store first where there is one, then the plain store. */
    method ReadKey() returns (r: Read)
      requires Valid()
      ensures r.Found? ==> Holds(Now(), r.key)
      ensures r.Missing? ==> Fresh(Now())
    {
      if biometricSupported {
        r := BiometricRead();
        if !r.Missing? { return; }
      }
      r := PlainRead();
    }

    /** `ensure_kek`: the stored key, or a freshly minted one once both stores say there is none. */
    method Ensure(random: Option<Key>) returns (r: Result<Key, Failure>)
      requires Valid()
      modifies this`plain, this`trace
      ensures Valid() && old(trace) <= trace
      ensures r.Ok? ==> Holds(Now(), r.value)
      ensures plain == old(plain) || (old(Fresh(Now())) && plain == random)
      ensures old(RecordAgrees(Now())) ==> RecordAgrees(Now())
    {
      ghost var before := Now();
      var stored := ReadKey();
      match stored {
        case Found(k) => r := Ok(k);
        case Error => r := Err(StoreFailed);
        case Missing =>
          if random.None? { return Err(StoreFailed); }
          var ok := PlainWrite(random.value);
          r := if ok then Ok(random.value) else Err(StoreFailed);
          if RecordAgrees(before) { MintAgrees(before, plain); }
      }
    }

    /** `status`. */
    method ReportStatus() returns (s: Status)
      ensures exists seen, probe :: Seen(Now(), seen) && Probed(Now(), probe) && s == StatusOf(seen, probe)
    {
      var seen := ReadRecord();
      if seen.Some? && seen.value.provider.Remote? {
        s := InRemote;
        assert s == StatusOf(seen, Error);
      } else if seen.Some? && seen.value.biometric {
        s := InBiometric;
        assert s == StatusOf(seen, Error);
      } else {
        var probe := PlainRead();
        match probe {
          case Found(_) => s := InKeychain;
          case Missing => s := Unconfigured;
          case Error => s := Unavailable;
        }
        assert s == StatusOf(seen, probe);
      }
    }

    /** `configure`. A success leaves exactly what `Configured` says, after the mint if there was one. */
    method ConfigureUnlocked(provider: Provider, random: Option<Key>)
      returns (r: Result<Status, Failure>, ghost seen: Option<Record>)
      requires Valid()
      modifies this
      ensures Valid() && old(trace) <= trace
      ensures Seen(old(Now()), seen)
      ensures recordUnread == (old(recordUnread) || seen != old(record))
      ensures old(recordSpoiled) ==> recordSpoiled
      ensures bio == old(bio) && (plain == old(plain) || (old(Fresh(Now())) && plain == random))
      ensures r.Err? ==> record == old(record) || recordSpoiled
      ensures r.Ok? ==> Now() == Configured(old(Now()).(plain := plain), envId, provider, seen)
      ensures r.Ok? && provider.Keychain? ==> !Fresh(Now())
      ensures !recordSpoiled && record != old(record) ==>
        Now() == Configured(old(Now()).(plain := plain), envId, provider, seen)
    {
      var read := ReadRecord();
      seen := read;
      recordUnread := recordUnread || seen != record;
      var biometric := read.Some? && read.value.biometric;
      if provider.Keychain? {
        var key := Ensure(random);
        if key.Err? { return Err(key.error), seen; }
      }
      var ok := WriteRecord(Record(provider, envId, biometric));
      if !ok { return Err(StoreFailed), seen; }
      var s := ReportStatus();
      r := Ok(s);
    }

    /** The command: the provider lock, then `configure`. A refusal is exactly a recorded provider that
        was read and differs, and changes nothing. */
    method ConfigureProvider(provider: Provider, random: Option<Key>)
      returns (r: Result<Status, Failure>, ghost lock: Option<Record>)
      requires Valid()
      modifies this
      ensures Valid() && old(trace) <= trace
      ensures Seen(old(Now()), lock) && (lock != old(record) ==> recordUnread)
      ensures Locked(lock, provider) ==> r == Err(Refused) && Now() == old(Now())
      ensures old(RecordAgrees(Now())) ==> recordSpoiled || recordUnread || RecordAgrees(Now())
      ensures (old(recordSpoiled) ==> recordSpoiled) && (old(recordUnread) ==> recordUnread)
      ensures old(record).Some? && !recordSpoiled ==> record.Some?
      ensures old(record).Some? && !recordSpoiled && !recordUnread ==>
        record.value.provider == old(record).value.provider
      ensures r.Ok? ==> record.Some? && record.value.provider == provider
      ensures r.Ok? && provider.Keychain? ==> !Fresh(Now())
    {
      var existing := ReadRecord();
      lock := existing;
      recordUnread := recordUnread || lock != record;
      if existing.Some? && existing.value.provider != provider { return Err(Refused), lock; }
      ghost var before, seen := Now(), None;
      r, seen := ConfigureUnlocked(provider, random);
      if RecordAgrees(before) && !recordSpoiled && !recordUnread {
        MintAgrees(before, plain);
        ConfigureAgreesIff(before.(plain := plain), envId, provider, seen);
      }
    }

    /** `set_biometric_protection`: the copy that goes is removed only after the other one is written, so
        a failure leaves the key where the record says it is. */
    method Protect(k: Key, enabled: bool) returns (ok: bool)
      requires Valid() && biometricSupported && Holds(Now(), k)
      modifies this`plain, this`bio, this`trace
      ensures Valid() && old(trace) <= trace && !Fresh(Now())
      ensures ok && enabled ==> plain.None? && bio == Some(k)
      ensures ok && !enabled ==> plain == Some(k) && bio.None?
      ensures !ok && old(RecordAgrees(Now())) ==> RecordAgrees(Now())
    {
      if enabled {
        ok := BiometricWrite(k);
        if ok { ok := PlainDelete(); }
      } else {
        ok := PlainWrite(k);
        if ok { ok := BiometricDelete(); }
      }
    }

    /** The move itself, and the record of it. */
    method MoveStored(k: Key, enabled: bool, keyId: string) returns (r: Result<Status, Failure>)
      requires Valid() && biometricSupported && Holds(Now(), k) && keyId == envId
      modifies this`plain, this`bio, this`record, this`trace, this`recordSpoiled
      ensures Valid() && old(trace) <= trace && (old(recordSpoiled) ==> recordSpoiled)
      ensures r.Err? && old(RecordAgrees(Now())) ==> recordSpoiled || RecordAgrees(Now())
      ensures r.Ok? ==> record == Some(Record(Keychain, envId, enabled)) && RecordAgrees(Now())
      ensures r.Ok? && enabled ==> plain.None? && bio.Some?
      ensures r.Ok? && !enabled ==> plain.Some? && bio.None?
      ensures record == old(record) || r.Ok? || recordSpoiled
    {
      var ok := Protect(k, enabled);
      if !ok { return Err(StoreFailed); }
      ok := WriteRecord(Record(Keychain, keyId, enabled));
      if !ok { return Err(StoreFailed); }
      var s := ReportStatus();
      r := Ok(s);
    }

    /** `set_biometric`: the same key moved into or out of the biometric store. A success always leaves
        the record in agreement, whatever state earlier failures had left, and even when the old record
        could not be read; but then it may have replaced a remote provider. */
    method MoveKey(enabled: bool, random: Option<Key>) returns (r: Result<Status, Failure>, ghost seen: Option<Record>)
      requires Valid()
      modifies this
      ensures Valid() && old(trace) <= trace
      ensures Seen(old(Now()), seen) && recordUnread == (old(recordUnread) || seen != old(record))
      ensures seen.Some? && seen.value.provider.Remote? ==> r == Err(Refused) && Now() == old(Now())
      ensures old(RecordAgrees(Now())) ==> recordSpoiled || RecordAgrees(Now())
      ensures old(recordSpoiled) ==> recordSpoiled
      ensures old(record).Some? && !recordSpoiled ==> record.Some?
      ensures old(record).Some? && !recordSpoiled && !recordUnread ==>
        record.value.provider == old(record).value.provider
      ensures r.Ok? ==> record == Some(Record(Keychain, envId, enabled)) && RecordAgrees(Now())
      ensures r.Ok? && enabled ==> plain.None? && bio.Some?
      ensures r.Ok? && !enabled ==> plain.Some? && bio.None?
    {
      seen := record;
      if enabled && !biometricSupported { return Err(Refused), seen; }
      var existing := ReadRecord();
      seen := existing;
      recordUnread := recordUnread || seen != record;
      if existing.Some? && existing.value.provider.Remote? { return Err(Refused), seen; }
      var key := Ensure(random);
      if key.Err? { return Err(key.error), seen; }
      if !biometricSupported { return Err(Refused), seen; }
      r := MoveStored(key.value, enabled, if existing.Some? then existing.value.keyId else envId);
    }

    /** Any serial run of commands, any operation failing: every key handed out is the one key the
        stores hold at the end, and a key held at the start is still the one. While no record write has
        failed and no command has acted on an unread record, the record agrees with the stores, and the
        provider recorded stays. */
    method Run(commands: seq<Command>) returns (keys: seq<Key>)
      requires Valid()
      modifies this
      ensures Valid() && old(trace) <= trace
      ensures forall k :: k in keys ==> Holds(Now(), k)
      ensures forall k :: old(Holds(Now(), k)) ==> Holds(Now(), k)
      ensures old(RecordAgrees(Now())) ==> recordSpoiled || recordUnread || RecordAgrees(Now())
      ensures old(record).Some? && !recordSpoiled && !recordUnread ==>
        record.Some? && record.value.provider == old(record).value.provider
          && record.value.keyId == old(record).value.keyId
    {
      keys := [];
      var i := 0;
      while i < |commands|
        invariant 0 <= i <= |commands|
        invariant Valid() && old(trace) <= trace
        invariant forall k :: k in keys ==> Holds(Now(), k)
        invariant old(RecordAgrees(Now())) ==> recordSpoiled || recordUnread || RecordAgrees(Now())
        invariant old(record).Some? && !recordSpoiled && !recordUnread ==>
          record.Some? && record.value.provider == old(record).value.provider
      {
        ghost var before, at := Now(), |trace| - 1;
        match commands[i] {
          case EnsureKek(random) =>
            var r := Ensure(random);
            if r.Ok? { keys := keys + [r.value]; }
          case Configure(provider, random) =>
            var _, _ := ConfigureProvider(provider, random);
          case SetBiometric(enabled, random) =>
            var _, _ := MoveKey(enabled, random);
        }
        assert trace[at] == before;
        forall k | k in keys ensures Holds(Now(), k) {
          if Holds(before, k) { NeverLost(trace, at, |trace| - 1, k); }
        }
        i := i + 1;
      }
      ghost var at := |old(trace)| - 1;
      assert trace[at] == old(Now());
      forall k | old(Holds(Now(), k)) ensures Holds(Now(), k) {
        NeverLost(trace, at, |trace| - 1, k);
      }
    }
  }
}
