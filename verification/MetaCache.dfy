/** Profile lookups through a file cache, against asking the service every time. */
module MetaCache {
  import opened Domain
  import opened Text

  const MAX_AGE := 7 * 24 * 3600 * SECOND
  const PROFILE_VARIANT: nat := 0

  /** A stored body: a profile that decodes to what was encoded, or bytes that do not decode. */
  datatype Body = Encoded(profile: MetaProfile) | Corrupt

  datatype File = File(body: Body, modified: int)

  /** How storing one entry can go wrong: not at all, before or after the file was truncated. */
  datatype Fault = NoFault | CreateFails | WriteFails

  /** One opening of an entry: the clock then, and whether the file could be read. */
  datatype Look = Look(now: int, readable: bool)

  /** One storing of an entry: the clock then, and how it went. */
  datatype Store = Store(now: int, fault: Fault)

  function CacheName(decimal: string, variant: nat): string {
    decimal + "_" + Digits(variant)
  }

  lemma NoLaterUnderscore(a: string, x: string, b: string, y: string)
    requires '_' !in x && a + "_" + x == b + "_" + y
    ensures |b| <= |a|
  {
    var s := a + "_" + x;
    assert forall i :: |a| < i < |s| ==> s[i] == x[i - |a| - 1];
    assert (b + "_" + y)[|b|] == '_';
  }

  lemma LastUnderscore(a: string, x: string, b: string, y: string)
    requires '_' !in x && '_' !in y && a + "_" + x == b + "_" + y
    ensures a == b && x == y
  {
    NoLaterUnderscore(a, x, b, y);
    NoLaterUnderscore(b, y, a, x);
    var s, t := a + "_" + x, b + "_" + y;
    assert s[..|a|] == a && t[..|b|] == b && s[|a| + 1..] == x && t[|b| + 1..] == y;
  }

  /** Different ids or variants never share a file. */
  lemma CacheNameInjective(a: string, v: nat, b: string, w: nat)
    requires CacheName(a, v) == CacheName(b, w)
    ensures a == b && v == w
  {
    assert forall i :: 0 <= i < |Digits(v)| ==> IsDigit(Digits(v)[i]);
    assert forall i :: 0 <= i < |Digits(w)| ==> IsDigit(Digits(w)[i]);
    LastUnderscore(a, Digits(v), b, Digits(w));
    NumberOfDigits(v);
    NumberOfDigits(w);
  }

  type Files = map<string, File>

  /** The library's decimal form of an id; assumed to tell ids apart. */
  type Form = SteamID -> string

  ghost predicate Injective(decimal: Form) {
    forall a, b :: decimal(a) == decimal(b) ==> a == b
  }

  function Name(decimal: Form, id: SteamID): string {
    CacheName(decimal(id), PROFILE_VARIANT)
  }

  /** A hit: the file is there, can be read, is not too old and decodes. */
  function Cached(files: Files, decimal: Form, id: SteamID, look: Look): Option<MetaProfile> {
    var name := Name(decimal, id);
    if name in files && look.readable && look.now - files[name].modified <= MAX_AGE && files[name].body.Encoded?
    then Some(files[name].body.profile)
    else None
  }

  /** An entry is used for a week after it was written, if it can be read and decodes. */
  lemma UsedForAWeek(files: Files, decimal: Form, id: SteamID, look: Look, p: MetaProfile)
    ensures Cached(files, decimal, id, look) == Some(p)
       <==> var name := decimal(id) + "_" + "0";
            && name in files && look.readable && files[name].body == Encoded(p)
            && look.now - files[name].modified <= 7 * 86_400_000_000_000
  {
    assert Digits(0) == "0";
  }

  function Hits(files: Files, decimal: Form, ids: seq<SteamID>, looks: seq<Look>): seq<MetaProfile>
    requires |looks| == |ids|
  {
    if ids == [] then []
    else
      var n := |ids| - 1;
      var c := Cached(files, decimal, ids[n], looks[n]);
      Hits(files, decimal, ids[..n], looks[..n]) + if c.Some? then [c.value] else []
  }

  /** The ids without a hit, in order. */
  function Missing(files: Files, decimal: Form, ids: seq<SteamID>, looks: seq<Look>): seq<SteamID>
    requires |looks| == |ids|
  {
    if ids == [] then []
    else
      var n := |ids| - 1;
      var c := Cached(files, decimal, ids[n], looks[n]);
      Missing(files, decimal, ids[..n], looks[..n]) + if c.Some? then [] else [ids[n]]
  }

  function Stored(files: Files, decimal: Form, p: MetaProfile, store: Store): Files {
    match store.fault
    case NoFault => files[Name(decimal, p.steamID) := File(Encoded(p), store.now)]
    case CreateFails => files
    case WriteFails => files[Name(decimal, p.steamID) := File(Corrupt, store.now)]
  }

  /** The files after storing the profiles one by one, up to the first failure. */
  function StoredAll(files: Files, decimal: Form, ps: seq<MetaProfile>, stores: seq<Store>): Files
    requires |stores| == |ps|
    decreases |ps|
  {
    if ps == [] then files
    else
      var files' := Stored(files, decimal, ps[0], stores[0]);
      if stores[0].fault.NoFault? then StoredAll(files', decimal, ps[1..], stores[1..]) else files'
  }

  /** A write that fails after truncating leaves an unusable entry, one that fails before leaves all as it was. */
  lemma FailedStore(files: Files, decimal: Form, p: MetaProfile, now: int, look: Look)
    ensures Stored(files, decimal, p, Store(now, CreateFails)) == files
    ensures Cached(Stored(files, decimal, p, Store(now, WriteFails)), decimal, p.steamID, look).None?
  {
  }

  /** Storing ends with the first failure; the profiles before it are stored. */
  lemma {:induction false} StoredUpToFailure(
    files: Files, decimal: Form, ps: seq<MetaProfile>, stores: seq<Store>, j: nat)
    requires |stores| == |ps| && j < |ps| && !stores[j].fault.NoFault? && AllWell(stores[..j])
    ensures StoredAll(files, decimal, ps, stores)
         == Stored(StoredAll(files, decimal, ps[..j], stores[..j]), decimal, ps[j], stores[j])
    decreases |ps|
  {
    if j == 0 {
      assert ps[..0] == [];
    } else {
      assert stores[..j][0] == stores[0] && ps[..j][0] == ps[0];
      assert ps[..j][1..] == ps[1..][..j - 1] && stores[..j][1..] == stores[1..][..j - 1];
      StoredUpToFailure(Stored(files, decimal, ps[0], stores[0]), decimal, ps[1..], stores[1..], j - 1);
    }
  }

  predicate AllWell(stores: seq<Store>) {
    forall i :: 0 <= i < |stores| ==> stores[i].fault.NoFault?
  }

  // ---------------------------------------------------------------- lookups

  /**
  One lookup: what it asks for, how each entry opens, the service's reply
  (nothing when the request fails), and how storing each of its profiles goes.
  */
  datatype Call = Call(ids: seq<SteamID>, looks: seq<Look>, reply: Option<seq<MetaProfile>>, stores: seq<Store>) {
    predicate WellFormed() {
      |looks| == |ids| && (reply.Some? ==> |stores| == |reply.value|)
    }
  }

  /** What a lookup asks the service for. */
  function Requested(files: Files, decimal: Form, c: Call): seq<SteamID>
    requires c.WellFormed()
  {
    Missing(files, decimal, c.ids, c.looks)
  }

  /** A lookup fails when it has to ask and the request or the storing of a profile fails. */
  predicate Succeeds(files: Files, decimal: Form, c: Call)
    requires c.WellFormed()
  {
    Requested(files, decimal, c) == [] || (c.reply.Some? && AllWell(c.stores))
  }

  /** The profiles a lookup returns; a failed one returns the hits alone. */
  function Result(files: Files, decimal: Form, c: Call): seq<MetaProfile>
    requires c.WellFormed()
  {
    Hits(files, decimal, c.ids, c.looks)
    + if Requested(files, decimal, c) != [] && Succeeds(files, decimal, c) then c.reply.value else []
  }

  function After(files: Files, decimal: Form, c: Call): Files
    requires c.WellFormed()
  {
    if Requested(files, decimal, c) == [] || c.reply.None? then files
    else StoredAll(files, decimal, c.reply.value, c.stores)
  }

  // ---------------------------------------------------------------- transparency

  function Direct(api: SteamID -> MetaProfile, ids: seq<SteamID>): seq<MetaProfile> {
    if ids == [] then []
    else
      var n := |ids| - 1;
      Direct(api, ids[..n]) + [api(ids[n])]
  }

  /** The service answers every id with its own fixed profile. */
  ghost predicate FixedApi(api: SteamID -> MetaProfile) {
    forall id :: api(id).steamID == id
  }

  /** Every entry that decodes holds the profile the service would give. */
  ghost predicate Honest(files: Files, decimal: Form, api: SteamID -> MetaProfile) {
    forall id :: Name(decimal, id) in files && files[Name(decimal, id)].body.Encoded? ==>
      files[Name(decimal, id)].body.profile == api(id)
  }

  lemma {:induction false} HitsAndMissing(
    files: Files, decimal: Form, ids: seq<SteamID>, looks: seq<Look>, api: SteamID -> MetaProfile)
    requires |looks| == |ids| && Honest(files, decimal, api)
    ensures multiset(Hits(files, decimal, ids, looks)) + multiset(Direct(api, Missing(files, decimal, ids, looks)))
         == multiset(Direct(api, ids))
  {
    if ids == [] {
    } else {
      var n := |ids| - 1;
      HitsAndMissing(files, decimal, ids[..n], looks[..n], api);
      var h, m := Hits(files, decimal, ids[..n], looks[..n]), Missing(files, decimal, ids[..n], looks[..n]);
      DirectSnoc(api, m, ids[n]);
      HonestHit(files, decimal, ids[n], looks[n], api);
      AddOne(h, Direct(api, m), Direct(api, ids[..n]), api(ids[n]));
      HitOrMiss(files, decimal, ids, looks);
    }
  }

  lemma HonestHit(files: Files, decimal: Form, id: SteamID, look: Look, api: SteamID -> MetaProfile)
    requires Honest(files, decimal, api)
    ensures var c := Cached(files, decimal, id, look); c.None? || c.value == api(id)
  {
  }

  lemma AddOne(h: seq<MetaProfile>, d: seq<MetaProfile>, t: seq<MetaProfile>, p: MetaProfile)
    requires multiset(h) + multiset(d) == multiset(t)
    ensures multiset(h + [p]) + multiset(d) == multiset(t + [p])
    ensures multiset(h) + multiset(d + [p]) == multiset(t + [p])
  {
  }

  lemma HitOrMiss(files: Files, decimal: Form, ids: seq<SteamID>, looks: seq<Look>)
    requires ids != [] && |looks| == |ids|
    ensures var n := |ids| - 1;
            var h, m := Hits(files, decimal, ids[..n], looks[..n]), Missing(files, decimal, ids[..n], looks[..n]);
            match Cached(files, decimal, ids[n], looks[n])
            case Some(p) =>
              Hits(files, decimal, ids, looks) == h + [p] && Missing(files, decimal, ids, looks) == m
            case None =>
              Hits(files, decimal, ids, looks) == h && Missing(files, decimal, ids, looks) == m + [ids[n]]
  {
  }

  lemma DirectSnoc(api: SteamID -> MetaProfile, ids: seq<SteamID>, id: SteamID)
    ensures Direct(api, ids + [id]) == Direct(api, ids) + [api(id)]
  {
    assert (ids + [id])[..|ids|] == ids;
  }

  lemma StoredHonest(files: Files, decimal: Form, p: MetaProfile, store: Store, api: SteamID -> MetaProfile)
    requires Injective(decimal) && Honest(files, decimal, api) && p == api(p.steamID)
    ensures Honest(Stored(files, decimal, p, store), decimal, api)
  {
    var files' := Stored(files, decimal, p, store);
    forall id | Name(decimal, id) in files' && files'[Name(decimal, id)].body.Encoded?
      ensures files'[Name(decimal, id)].body.profile == api(id)
    {
      if Name(decimal, id) == Name(decimal, p.steamID) {
        CacheNameInjective(decimal(id), PROFILE_VARIANT, decimal(p.steamID), PROFILE_VARIANT);
      }
    }
  }

  /** Whatever fails on the way, the cache never comes to hold a wrong profile. */
  lemma {:induction false} StoredAllHonest(
    files: Files, decimal: Form, ps: seq<MetaProfile>, stores: seq<Store>, api: SteamID -> MetaProfile)
    requires |stores| == |ps| && Injective(decimal) && Honest(files, decimal, api)
    requires forall i :: 0 <= i < |ps| ==> ps[i] == api(ps[i].steamID)
    ensures Honest(StoredAll(files, decimal, ps, stores), decimal, api)
    decreases |ps|
  {
    if ps == [] {
    } else {
      StoredHonest(files, decimal, ps[0], stores[0], api);
      if stores[0].fault.NoFault? {
        StoredAllHonest(Stored(files, decimal, ps[0], stores[0]), decimal, ps[1..], stores[1..], api);
      }
    }
  }

  /** The reply to a request: every requested id's profile, in any order. */
  ghost predicate Answers(api: SteamID -> MetaProfile, requested: seq<SteamID>, reply: seq<MetaProfile>) {
    multiset(reply) == multiset(Direct(api, requested))
  }

  lemma {:induction false} DirectMember(api: SteamID -> MetaProfile, ids: seq<SteamID>, p: MetaProfile)
    ensures p in Direct(api, ids) <==> exists i :: 0 <= i < |ids| && p == api(ids[i])
  {
    if ids == [] {
    } else {
      DirectMember(api, ids[..|ids| - 1], p);
    }
  }

  lemma AnswersAreOwn(api: SteamID -> MetaProfile, requested: seq<SteamID>, reply: seq<MetaProfile>)
    requires FixedApi(api) && Answers(api, requested, reply)
    ensures forall i :: 0 <= i < |reply| ==> reply[i] == api(reply[i].steamID)
  {
    forall i | 0 <= i < |reply|
      ensures reply[i] == api(reply[i].steamID)
    {
      assert reply[i] in multiset(reply);
      DirectMember(api, requested, reply[i]);
    }
  }

  /** Whatever reply arrives answers the request; none may arrive. */
  ghost predicate Answered(files: Files, decimal: Form, api: SteamID -> MetaProfile, c: Call) {
    && c.WellFormed()
    && var requested := Requested(files, decimal, c);
       requested != [] && c.reply.Some? ==> Answers(api, requested, c.reply.value)
  }

  /** The ids are told apart, the service is fixed, the cache is honest and the reply answers the request. */
  ghost predicate Faithful(files: Files, decimal: Form, api: SteamID -> MetaProfile, c: Call) {
    Injective(decimal) && FixedApi(api) && Honest(files, decimal, api) && Answered(files, decimal, api, c)
  }

  /**
  All of what direct fetching would give or, when the lookup failed, all but
  the profiles it had to ask for; and an honest cache.
  */
  ghost predicate Transparent(
    decimal: Form, api: SteamID -> MetaProfile, ids: seq<SteamID>, requested: seq<SteamID>,
    profiles: seq<MetaProfile>, ok: bool, files: Files)
  {
    && Honest(files, decimal, api)
    && (ok ==> multiset(profiles) == multiset(Direct(api, ids)))
    && (!ok ==> multiset(profiles) + multiset(Direct(api, requested)) == multiset(Direct(api, ids)))
  }

  lemma ResultDirect(files: Files, decimal: Form, api: SteamID -> MetaProfile, c: Call)
    requires Honest(files, decimal, api) && Answered(files, decimal, api, c)
    ensures var r, d := multiset(Result(files, decimal, c)), multiset(Direct(api, c.ids));
            if Succeeds(files, decimal, c) then r == d
            else r + multiset(Direct(api, Requested(files, decimal, c))) == d
  {
    HitsAndMissing(files, decimal, c.ids, c.looks, api);
    var hits := Hits(files, decimal, c.ids, c.looks);
    assert hits + [] == hits;
  }

  lemma AfterHonest(files: Files, decimal: Form, api: SteamID -> MetaProfile, c: Call)
    requires Faithful(files, decimal, api, c)
    ensures Honest(After(files, decimal, c), decimal, api)
  {
    var requested := Requested(files, decimal, c);
    if requested != [] && c.reply.Some? {
      AnswersAreOwn(api, requested, c.reply.value);
      StoredAllHonest(files, decimal, c.reply.value, c.stores, api);
    }
  }

  /**
  A lookup that succeeds returns what direct fetching would, one that fails
  exactly the cached part of it; either way the cache stays honest.
  */
  lemma CallTransparent(files: Files, decimal: Form, api: SteamID -> MetaProfile, c: Call)
    requires c.WellFormed()
    ensures Faithful(files, decimal, api, c) ==>
              Transparent(decimal, api, c.ids, Requested(files, decimal, c), Result(files, decimal, c),
                          Succeeds(files, decimal, c), After(files, decimal, c))
  {
    if Faithful(files, decimal, api, c) {
      ResultDirect(files, decimal, api, c);
      AfterHonest(files, decimal, api, c);
    }
  }

  predicate WellFormed(calls: seq<Call>) {
    forall i :: 0 <= i < |calls| ==> calls[i].WellFormed()
  }

  /** The files call `k` of a run finds. */
  function Before(files: Files, decimal: Form, calls: seq<Call>, k: nat): Files
    requires WellFormed(calls) && k <= |calls|
    decreases k
  {
    if k == 0 then files else Before(After(files, decimal, calls[0]), decimal, calls[1..], k - 1)
  }

  /** Every reply of the run answers its request. */
  ghost predicate AllAnswered(files: Files, decimal: Form, api: SteamID -> MetaProfile, calls: seq<Call>)
    requires WellFormed(calls)
    decreases |calls|
  {
    calls == []
    || (&& Answered(files, decimal, api, calls[0])
        && AllAnswered(After(files, decimal, calls[0]), decimal, api, calls[1..]))
  }

  /**
  Over any sequence of lookups, with any failures in between, no lookup that
  succeeds can be told from asking the service for every id, and one that
  fails returns exactly the cached part of that.
  */
  lemma {:induction false} RunTransparent(
    files: Files, decimal: Form, api: SteamID -> MetaProfile, calls: seq<Call>, k: nat)
    requires Injective(decimal) && FixedApi(api) && Honest(files, decimal, api)
    requires WellFormed(calls) && AllAnswered(files, decimal, api, calls) && k < |calls|
    ensures var found := Before(files, decimal, calls, k);
            Transparent(decimal, api, calls[k].ids, Requested(found, decimal, calls[k]),
                        Result(found, decimal, calls[k]), Succeeds(found, decimal, calls[k]),
                        After(found, decimal, calls[k]))
    decreases k
  {
    if k == 0 {
      CallTransparent(files, decimal, api, calls[0]);
    } else {
      AfterHonest(files, decimal, api, calls[0]);
      RunTransparent(After(files, decimal, calls[0]), decimal, api, calls[1..], k - 1);
    }
  }

  class Fetcher {
    const decimal: Form
    var files: Files

    constructor (decimal: Form)
      ensures files == map[] && this.decimal == decimal
    {
      this.decimal := decimal;
      files := map[];
    }

    /** A stale file counts as missing; removing it goes to another directory, so it stays. */
    method Get(id: SteamID, variant: nat, look: Look) returns (r: Option<Body>)
      ensures var name := CacheName(decimal(id), variant);
              r == if name in files && look.readable && look.now - files[name].modified <= 7 * 86_400_000_000_000
                   then Some(files[name].body) else None
    {
      var name := CacheName(decimal(id), variant);
      if name !in files {
        return None;
      }
      if look.now - files[name].modified > MAX_AGE {
        return None;
      }
      if !look.readable {
        return None;
      }
      return Some(files[name].body);
    }

    method Set(p: MetaProfile, store: Store) returns (ok: bool)
      modifies this
      ensures files == Stored(old(files), decimal, p, store) && ok == store.fault.NoFault?
    {
      var name := CacheName(decimal(p.steamID), PROFILE_VARIANT);
      if store.fault.CreateFails? {
        return false;
      }
      files := files[name := File(Corrupt, store.now)];
      if store.fault.WriteFails? {
        return false;
      }
      files := files[name := File(Encoded(p), store.now)];
      return true;
    }

    method CachedMetaProfiles(ids: seq<SteamID>, looks: seq<Look>)
      returns (profiles: seq<MetaProfile>, missing: seq<SteamID>)
      requires |looks| == |ids|
      ensures profiles == Hits(files, decimal, ids, looks)
      ensures missing == Missing(files, decimal, ids, looks)
    {
      profiles, missing := [], [];
      for i := 0 to |ids|
        invariant profiles == Hits(files, decimal, ids[..i], looks[..i])
        invariant missing == Missing(files, decimal, ids[..i], looks[..i])
      {
        assert ids[..i + 1][..i] == ids[..i] && looks[..i + 1][..i] == looks[..i];
        var body := Get(ids[i], PROFILE_VARIANT, looks[i]);
        if body.None? || body.value.Corrupt? {
          missing := missing + [ids[i]];
          continue;
        }
        profiles := profiles + [body.value.profile];
      }
      assert ids[..|ids|] == ids && looks[..|ids|] == looks;
    }

    /** Stores the reply; a failed request or a failed write makes the call fail. */
    method FetchMetaProfiles(reply: Option<seq<MetaProfile>>, stores: seq<Store>)
      returns (r: Option<seq<MetaProfile>>)
      requires reply.Some? ==> |stores| == |reply.value|
      modifies this
      ensures reply.None? ==> r.None? && files == old(files)
      ensures reply.Some? ==> r == (if AllWell(stores) then reply else None)
      ensures reply.Some? ==> files == StoredAll(old(files), decimal, reply.value, stores)
    {
      if reply.None? {
        return None;
      }
      var ps := reply.value;
      assert ps[0..] == ps && stores[0..] == stores;
      for i := 0 to |ps|
        invariant StoredAll(files, decimal, ps[i..], stores[i..]) == StoredAll(old(files), decimal, ps, stores)
        invariant forall k :: 0 <= k < i ==> stores[k].fault.NoFault?
      {
        assert ps[i..][1..] == ps[i + 1..] && stores[i..][1..] == stores[i + 1..];
        var ok := Set(ps[i], stores[i]);
        if !ok {
          return None;
        }
      }
      return reply;
    }

    /**
    A lookup. `requested` is what the service is asked for: exactly the ids
    without a usable entry, in order, and nothing at all when there are none.
    Against a service `api`, a lookup that succeeds returns what asking for
    every id would, one that fails the cached part of it, and the cache stays
    honest.
    */
    method MetaProfiles(c: Call, ghost api: SteamID -> MetaProfile)
      returns (profiles: seq<MetaProfile>, ok: bool, requested: seq<SteamID>)
      requires c.WellFormed()
      modifies this
      ensures requested == Missing(old(files), decimal, c.ids, c.looks)
      ensures ok == Succeeds(old(files), decimal, c)
      ensures profiles == Result(old(files), decimal, c)
      ensures files == After(old(files), decimal, c)
      ensures Faithful(old(files), decimal, api, c) ==>
                Transparent(decimal, api, c.ids, requested, profiles, ok, files)
    {
      CallTransparent(files, decimal, api, c);
      if |c.ids| == 0 {
        return [], true, [];
      }
      profiles, requested := CachedMetaProfiles(c.ids, c.looks);
      if |requested| == 0 {
        return profiles, true, requested;
      }
      var updates := FetchMetaProfiles(c.reply, c.stores);
      if updates.None? {
        return profiles, false, requested;
      }
      return profiles + updates.value, true, requested;
    }
  }

  // ---------------------------------------------------------------- repeats

  /** An id is missing when one of its openings found no usable entry. */
  lemma {:induction false} MissingMember(
    files: Files, decimal: Form, ids: seq<SteamID>, looks: seq<Look>, id: SteamID)
    requires |looks| == |ids|
    ensures id in Missing(files, decimal, ids, looks)
       <==> exists i :: 0 <= i < |ids| && ids[i] == id && Cached(files, decimal, id, looks[i]).None?
  {
    if ids == [] {
    } else {
      var n := |ids| - 1;
      MissingMember(files, decimal, ids[..n], looks[..n], id);
      assert forall i :: 0 <= i < n ==> ids[..n][i] == ids[i] && looks[..n][i] == looks[i];
    }
  }

  lemma {:induction false} NothingMissing(files: Files, decimal: Form, ids: seq<SteamID>, looks: seq<Look>)
    requires |looks| == |ids|
    requires forall i :: 0 <= i < |ids| ==> Cached(files, decimal, ids[i], looks[i]).Some?
    ensures Missing(files, decimal, ids, looks) == []
  {
    if ids == [] {
    } else {
      NothingMissing(files, decimal, ids[..|ids| - 1], looks[..|ids| - 1]);
    }
  }

  /** The entry holds a profile and was stored by one of the given writes. */
  ghost predicate FreshEntry(files: Files, decimal: Form, stores: seq<Store>, id: SteamID) {
    && Name(decimal, id) in files && files[Name(decimal, id)].body.Encoded?
    && exists k :: 0 <= k < |stores| && files[Name(decimal, id)].modified == stores[k].now
  }

  predicate SameEntry(files: Files, files': Files, name: string) {
    && (name in files <==> name in files')
    && (name in files ==> files[name] == files'[name])
  }

  /** After a clean storing, an entry is one of the new profiles or what it was. */
  lemma {:induction false} StoredAllFound(
    files: Files, decimal: Form, ps: seq<MetaProfile>, stores: seq<Store>, id: SteamID)
    requires |stores| == |ps| && AllWell(stores) && Injective(decimal)
    ensures var files' := StoredAll(files, decimal, ps, stores);
            if exists i :: 0 <= i < |ps| && ps[i].steamID == id then FreshEntry(files', decimal, stores, id)
            else SameEntry(files, files', Name(decimal, id))
    decreases |ps|
  {
    if ps == [] {
    } else {
      var files1 := Stored(files, decimal, ps[0], stores[0]);
      var files' := StoredAll(files1, decimal, ps[1..], stores[1..]);
      StoredAllFound(files1, decimal, ps[1..], stores[1..], id);
      if Name(decimal, id) == Name(decimal, ps[0].steamID) {
        CacheNameInjective(decimal(id), PROFILE_VARIANT, decimal(ps[0].steamID), PROFILE_VARIANT);
      }
      if exists i :: 0 <= i < |ps[1..]| && ps[1..][i].steamID == id {
        var k :| 0 <= k < |stores[1..]| && files'[Name(decimal, id)].modified == stores[1..][k].now;
        assert stores[k + 1] == stores[1..][k];
        var i :| 0 <= i < |ps[1..]| && ps[1..][i].steamID == id;
        assert ps[i + 1].steamID == id;
      } else if ps[0].steamID == id {
        assert files'[Name(decimal, id)].modified == stores[0].now;
      } else {
        assert forall i :: 0 < i < |ps| ==> ps[i] == ps[1..][i - 1];
      }
    }
  }

  /** At the opening, no entry the first lookup used or stored has passed the age limit. */
  ghost predicate StillFresh(files: Files, decimal: Form, c: Call, later: seq<Look>, i: nat)
    requires c.WellFormed() && i < |c.ids| == |later|
  {
    && later[i].readable
    && (forall k :: 0 <= k < |c.stores| ==> later[i].now - c.stores[k].now <= MAX_AGE)
    && (Cached(files, decimal, c.ids[i], c.looks[i]).Some? ==>
          later[i].now - files[Name(decimal, c.ids[i])].modified <= MAX_AGE)
  }

  lemma AnswerHas(api: SteamID -> MetaProfile, requested: seq<SteamID>, reply: seq<MetaProfile>, id: SteamID)
    requires FixedApi(api) && Answers(api, requested, reply) && id in requested
    ensures exists i :: 0 <= i < |reply| && reply[i].steamID == id
  {
    DirectMember(api, requested, api(id));
    assert api(id) in multiset(Direct(api, requested));
    var i :| 0 <= i < |reply| && reply[i] == api(id);
    assert reply[i].steamID == id;
  }

  lemma FoundAgain(files: Files, decimal: Form, api: SteamID -> MetaProfile, c: Call, later: seq<Look>, i: nat)
    requires Injective(decimal) && FixedApi(api) && Answered(files, decimal, api, c) && Succeeds(files, decimal, c)
    requires i < |c.ids| == |later| && StillFresh(files, decimal, c, later, i)
    ensures Cached(After(files, decimal, c), decimal, c.ids[i], later[i]).Some?
  {
    var id, requested := c.ids[i], Requested(files, decimal, c);
    MissingMember(files, decimal, c.ids, c.looks, id);
    if requested != [] {
      StoredAllFound(files, decimal, c.reply.value, c.stores, id);
      if id in requested {
        AnswerHas(api, requested, c.reply.value, id);
      }
    }
  }

  /**
  A repeat after a lookup that succeeded asks the service for nothing, as long
  as no entry that lookup used or stored has passed the age limit.
  */
  lemma RepeatRequestsNothing(files: Files, decimal: Form, api: SteamID -> MetaProfile, c: Call, later: seq<Look>)
    requires Injective(decimal) && FixedApi(api) && Answered(files, decimal, api, c) && Succeeds(files, decimal, c)
    requires |later| == |c.ids| && forall i :: 0 <= i < |c.ids| ==> StillFresh(files, decimal, c, later, i)
    ensures Missing(After(files, decimal, c), decimal, c.ids, later) == []
  {
    forall i | 0 <= i < |c.ids|
      ensures Cached(After(files, decimal, c), decimal, c.ids[i], later[i]).Some?
    {
      FoundAgain(files, decimal, api, c, later, i);
    }
    NothingMissing(After(files, decimal, c), decimal, c.ids, later);
  }
}
