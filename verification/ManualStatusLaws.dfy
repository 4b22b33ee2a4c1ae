/** What a manual status write promises its callers and the statistics reader. */
module ManualStatusLaws {
  import opened Wrappers
  import opened Text
  import opened ManualStatus

  // ---- writes keep the set of files and tables ----

  ghost predicate SameShape(a: Stores, b: Stores) {
    && a.Keys == b.Keys
    && forall p <- a :: a[p].leads.Some? == b[p].leads.Some? && a[p].overrides.Some? == b[p].overrides.Some?
  }

  lemma {:induction false} ShapeKeepsExisting(a: Stores, b: Stores, paths: seq<Path>)
    requires a.Keys == b.Keys
    ensures Existing(a, paths) == Existing(b, paths)
  {
    if paths != [] { ShapeKeepsExisting(a, b, paths[..|paths| - 1]); }
  }

  lemma {:induction false} ShapeKeepsChoices(a: Stores, b: Stores, paths: seq<Path>, unreadable: set<Path>)
    requires SameShape(a, b)
    ensures FirstReadable(a, paths, unreadable) == FirstReadable(b, paths, unreadable)
    ensures FirstWithOverrides(a, paths, unreadable) == FirstWithOverrides(b, paths, unreadable)
  {
    if paths != [] { ShapeKeepsChoices(a, b, paths[1..], unreadable); }
  }

  lemma ShapeKeepsResolution(site: Site, a: Stores, b: Stores, mk: string, unreadable: set<Path>, look: Look)
    requires SameShape(a, b)
    ensures Authoritative(site, a, mk, unreadable) == Authoritative(site, b, mk, unreadable)
    ensures LeadStore(site, a, mk, look) == LeadStore(site, b, mk, look)
    ensures OverlayStore(site, a, mk, look) == OverlayStore(site, b, mk, look)
  {
    ShapeKeepsExisting(a, b, Configured(site, mk) + [site.canonical(mk)]);
    ShapeKeepsExisting(a, b, [site.canonical(mk)]);
    ShapeKeepsChoices(a, b, Candidates(site, a, mk), unreadable);
    ShapeKeepsChoices(a, b, ReaderCandidates(site, a, mk, look), look.unreadable);
  }

  lemma {:induction false} ExistingIsASet(stores: Stores, paths: seq<Path>)
    ensures forall p :: p in Existing(stores, paths) <==> p in paths && p in stores
    ensures forall i, j :: 0 <= i < j < |Existing(stores, paths)| ==>
      Existing(stores, paths)[i] != Existing(stores, paths)[j]
  {
    if paths != [] {
      ExistingIsASet(stores, paths[..|paths| - 1]);
      assert paths == paths[..|paths| - 1] + [paths[|paths| - 1]];
    }
  }

  lemma WriteKeepsTables(site: Site, path: Path, store: Store, q: Request, fault: Fault)
    ensures var s := WriteStatus(site, path, store, q, fault).0;
            s.leads.Some? == store.leads.Some? && s.overrides.Some? == store.overrides.Some?
  {
  }

  /** The mirror pass creates and drops no file and no table. */
  lemma {:induction false} MirrorsKeepShape(site: Site, stores: Stores, paths: seq<Path>, auth: Path, q: Request,
          w: World)
    ensures SameShape(stores, Mirrored(site, stores, paths, auth, q, w))
  {
    if paths != [] {
      var (init, p) := (paths[..|paths| - 1], paths[|paths| - 1]);
      MirrorsKeepShape(site, stores, init, auth, q, w);
      var done := Mirrored(site, stores, init, auth, q, w);
      if p != auth && p in done { WriteKeepsTables(site, p, done[p], q, w.fault(p)); }
    }
  }

  /** What the mirror pass leaves in each store. */
  lemma {:induction false} MirrorPass(site: Site, stores: Stores, paths: seq<Path>, auth: Path, q: Request, w: World,
          p: Path)
    requires forall i, j :: 0 <= i < j < |paths| ==> paths[i] != paths[j]
    requires p in stores
    ensures var done := Mirrored(site, stores, paths, auth, q, w);
            p in done && done[p] ==
              if p in paths && p != auth then WriteStatus(site, p, stores[p], q, w.fault(p)).0 else stores[p]
  {
    if paths != [] {
      var (init, last) := (paths[..|paths| - 1], paths[|paths| - 1]);
      assert forall i :: 0 <= i < |init| ==> init[i] == paths[i];
      assert paths == init + [last];
      MirrorPass(site, stores, init, auth, q, w, p);
    }
  }

  /** The store of `p` after the call, and whether its own write went through. */
  function StoreAfter(site: Site, desk: Desk, q: Request, w: World, auth: Path, p: Path): (Store, bool)
    requires p in desk.stores
  {
    if p == auth || (p in Mirrors(site, desk.stores, q.manager))
    then WriteStatus(site, p, desk.stores[p], q, w.fault(p))
    else (desk.stores[p], false)
  }

  lemma AfterSuccess(site: Site, desk: Desk, q: Request, w: World, auth: Path, p: Path)
    requires Authoritative(site, desk.stores, q.manager, w.unreadable) == Some(auth)
    requires auth in desk.stores && p in desk.stores && Applied(site, desk, q, w).1
    ensures var d := Applied(site, desk, q, w).0;
            && SameShape(desk.stores, d.stores)
            && p in d.stores && d.stores[p] == StoreAfter(site, desk, q, w, auth, p).0
  {
    var stores := desk.stores[auth := WriteStatus(site, auth, desk.stores[auth], q, w.fault(auth)).0];
    WriteKeepsTables(site, auth, desk.stores[auth], q, w.fault(auth));
    assert SameShape(desk.stores, stores);
    var mirrors := Mirrors(site, stores, q.manager);
    MirrorsAreASet(site, stores, q.manager);
    ShapeKeepsExisting(desk.stores, stores, MirrorPaths(site, q.manager));
    MirrorsKeepShape(site, stores, mirrors, auth, q, w);
    MirrorPass(site, stores, mirrors, auth, q, w, p);
  }

  lemma MirrorsAreASet(site: Site, stores: Stores, mk: string)
    ensures var m := Mirrors(site, stores, mk); forall i, j :: 0 <= i < j < |m| ==> m[i] != m[j]
    ensures forall p <- Mirrors(site, stores, mk) :: p in {site.central, site.canonical(mk)}
  {
    ExistingIsASet(stores, MirrorPaths(site, mk));
  }

  // ---- the frame of the call ----

  /**
  A call that reports failure leaves every other store and the card's throttle as they were;
  with the registry unreadable it always fails, and leaves every store.
  */
  lemma FailureFrame(site: Site, desk: Desk, q: Request, w: World)
    ensures site.registry.Unavailable? ==> Applied(site, desk, q, w) == (desk, false)
    ensures !Applied(site, desk, q, w).1 ==>
      var d := Applied(site, desk, q, w).0;
      && d.touched == desk.touched && d.stores.Keys == desk.stores.Keys
      && forall p <- desk.stores ::
           d.stores[p] != desk.stores[p] ==>
             && Authoritative(site, desk.stores, q.manager, w.unreadable) == Some(p)
             && desk.stores[p].leads.Some? && q.Key() !in desk.stores[p].leads.value
             && d.stores[p] == desk.stores[p].(leads := Some(desk.stores[p].leads.value[q.Key() := HealedLead(q.now)]))
  {
  }

  /** Success, and what the authoritative store then holds, depend on that store alone. */
  lemma SuccessIsAuthoritative(site: Site, a: Desk, b: Desk, q: Request, w: World, v: World, auth: Path)
    requires Authoritative(site, a.stores, q.manager, w.unreadable) == Some(auth)
    requires Authoritative(site, b.stores, q.manager, v.unreadable) == Some(auth)
    requires auth in a.stores && auth in b.stores && a.stores[auth] == b.stores[auth] && w.fault(auth) == v.fault(auth)
    ensures Applied(site, a, q, w).1 == Applied(site, b, q, v).1
    ensures var (x, y) := (Applied(site, a, q, w).0.stores, Applied(site, b, q, v).0.stores);
            Applied(site, a, q, w).1 ==> auth in x && auth in y && x[auth] == y[auth]
  {
    if Applied(site, a, q, w).1 {
      AfterSuccess(site, a, q, w, auth, auth);
      AfterSuccess(site, b, q, v, auth, auth);
    }
  }

  /** Each success adds one audit row to the authoritative store, where that table exists. */
  lemma OneAuditRow(site: Site, desk: Desk, q: Request, w: World, auth: Path)
    requires Authoritative(site, desk.stores, q.manager, w.unreadable) == Some(auth)
    requires auth in desk.stores && desk.stores[auth].audit.Some? && Applied(site, desk, q, w).1
    ensures auth in Applied(site, desk, q, w).0.stores
    ensures var (before, after) := (desk.stores[auth].audit.value, Applied(site, desk, q, w).0.stores[auth].audit);
            && after.Some? && |after.value| == |before| + 1 && before <= after.value
            && var e := after.value[|before|];
               e.key == q.Key() && e.actor == q.actor && e.code == q.code && e.at == q.now
               && (q.code != "clear" ==> ActionOf(q.code).Some? && e.newBucket == ActionOf(q.code).value.bucket)
  {
    AfterSuccess(site, desk, q, w, auth, auth);
  }

  /**
  Pressing the same status again, resolved to the same store, is recognised as already set
  exactly when that store's override can be read, where the override table exists.
  */
  lemma SecondPressIsRecognised(site: Site, desk: Desk, q: Request, w: World, auth: Path, unreadable: set<Path>,
          readOk: bool)
    requires Authoritative(site, desk.stores, q.manager, w.unreadable) == Some(auth)
    requires Authoritative(site, desk.stores, q.manager, unreadable) == Some(auth)
    requires auth in desk.stores && desk.stores[auth].overrides.Some?
    requires Applied(site, desk, q, w).1 && q.code != "clear"
    ensures var stores := Applied(site, desk, q, w).0.stores;
            SameStatus(AuthoritativeOverride(site, stores, q.manager, q.chat, unreadable, readOk), q.code) <==> readOk
  {
    AfterSuccess(site, desk, q, w, auth, auth);
    ShapeKeepsResolution(site, desk.stores, Applied(site, desk, q, w).0.stores, q.manager, unreadable, CLEAR);
  }

  // ---- end to end: the reader sees the write ----

  lemma {:induction false} ChoiceExists(stores: Stores, paths: seq<Path>, unreadable: set<Path>)
    ensures var c := FirstReadable(stores, paths, unreadable);
            c.Some? ==> c.value in stores && stores[c.value].leads.Some? && c.value in paths && c.value !in unreadable
  {
    if paths != [] { ChoiceExists(stores, paths[1..], unreadable); }
  }

  /**
  One choice is met by another over the same list, or over its end, exactly when neither's store is
  closed to the other.
  */
  lemma {:induction false} ProbeAgrees(stores: Stores, front: seq<Path>, paths: seq<Path>, u: set<Path>, v: set<Path>)
    requires forall p <- front :: p !in paths
    ensures var (writer, reader) := (FirstReadable(stores, front + paths, u), FirstReadable(stores, paths, v));
            writer == reader <==>
              (writer.None? || (writer.value in paths && writer.value !in v)) && (reader.None? || reader.value !in u)
    decreases |front| + |paths|
  {
    var all := front + paths;
    ChoiceExists(stores, all, u);
    ChoiceExists(stores, paths, v);
    if front != [] {
      assert all[1..] == front[1..] + paths && all[0] == front[0];
      ProbeAgrees(stores, front[1..], paths, u, v);
    } else {
      assert all == paths;
      if paths != [] {
        ProbeAgrees(stores, [], paths[1..], u, v);
        assert [] + paths[1..] == paths[1..];
        ChoiceExists(stores, paths[1..], u);
        ChoiceExists(stores, paths[1..], v);
      }
    }
  }

  lemma ExistingOne(stores: Stores, p: Path)
    ensures Existing(stores, [p]) == if p in stores then [p] else []
  {
    assert [p][..0] == [] && Existing(stores, []) == [];
  }

  lemma ExistingTwo(stores: Stores, p: Path, q: Path)
    ensures Existing(stores, [p, q]) == (if p in stores && p != q then [p] else []) + Existing(stores, [q])
  {
    ExistingOne(stores, p);
    ExistingOne(stores, q);
    assert [p, q][..1] == [p];
  }

  /** The stores tried with the registry are those tried without it, with at most the configured one ahead of them. */
  lemma CandidatesEndInReaders(site: Site, stores: Stores, mk: string, look: Look) returns (front: seq<Path>)
    ensures Candidates(site, stores, mk) == front + ReaderCandidates(site, stores, mk, look)
    ensures forall p <- front :: p !in ReaderCandidates(site, stores, mk, look)
  {
    front := [];
    var (some, last) := (Configured(site, mk), site.canonical(mk));
    if mk != "" && !look.registryOk {
      ExistingOne(stores, last);
      if some == [] {
        assert some + [last] == [last];
      } else {
        assert some + [last] == [some[0], last];
        ExistingTwo(stores, some[0], last);
        if some[0] in stores && some[0] != last { front := [some[0]]; }
      }
    }
  }

  /**
  The store the writer resolves is the one a read goes to exactly when the writer could read
  the reader's, the reader could read the writer's, and the read's candidates include it.
  */
  lemma WriterMeetsReader(site: Site, stores: Stores, mk: string, unreadable: set<Path>, look: Look)
    requires site.registry.Readable?
    ensures var (writer, reader) := (Authoritative(site, stores, mk, unreadable), LeadStore(site, stores, mk, look));
            writer == reader <==>
              && (reader.None? || reader.value !in unreadable)
              && (writer.None?
                  || (writer.value !in look.unreadable && writer.value in ReaderCandidates(site, stores, mk, look)))
  {
    var front := CandidatesEndInReaders(site, stores, mk, look);
    ProbeAgrees(stores, front, ReaderCandidates(site, stores, mk, look), unreadable, look.unreadable);
  }

  /** A marked row resolves to the code's bucket by its own fields, and so does the override. */
  lemma MarkedResolves(lead: Lead, code: string, actor: int, now: int)
    requires ActionOf(code).Some?
    ensures var a := ActionOf(code).value;
            && FieldBucket(MarkedLead(lead, a, actor, now)) == a.bucket
            && OverlayBucket(Some(Override(a.status, a.bucket, a.reason, actor, now))) == Some(a.bucket)
  {
    var a := ActionOf(code).value;
    ActionsArePlain(code);
    PlainIsClean(a.status);
    PlainIsClean(a.bucket);
    var m := MarkedLead(lead, a, actor, now);
    CodesResolve(code, Clean(FirstNonEmpty(m.qualityReason, m.nonliquidReason)), Strip(m.country), m.age);
  }

  lemma ActionsArePlain(code: string)
    requires ActionOf(code).Some?
    ensures Plain(ActionOf(code).value.status) && Plain(ActionOf(code).value.bucket)
  {
    assert Plain("liquid") && Plain("nonliquid") && Plain("na");
    assert Plain("trash") && Plain("geo") && Plain("under18");
  }

  lemma CodesResolve(code: string, reason: string, country: string, age: Option<int>)
    requires ActionOf(code).Some?
    ensures var a := ActionOf(code).value;
            && BucketOf(a.bucket, a.status, a.status, reason, country, age) == a.bucket
            && OverlayOf(a.bucket, a.status) == Some(a.bucket)
  {
    assert |"liquid"| == 6 && |"nonliquid"| == 9 && |"under18"| == 7 && |"geo"| == 3 && |"trash"| == 5 && |"na"| == 2;
  }

  /** The state before the call in which the override overlay will not contradict the row. */
  predicate OverlayAgrees(site: Site, desk: Desk, q: Request, w: World, auth: Path, bucket: string, look: Look) {
    var o := OverlayStore(site, desk.stores, q.manager, look);
    || o.None?
    || o.value == auth
    || (o.value in desk.stores && StoreAfter(site, desk, q, w, auth, o.value).1)
    || OverlayBucket(OverrideIn(desk.stores, o.value, q.Key())) in {None, Some(bucket)}
  }

  lemma WrittenStore(site: Site, path: Path, store: Store, q: Request, fault: Fault)
    requires WriteStatus(site, path, store, q, fault).1 && q.code != "clear"
    ensures ActionOf(q.code).Some? && q.chat != 0
    ensures var (a, s) := (ActionOf(q.code).value, WriteStatus(site, path, store, q, fault).0);
            && s.leads.Some? && q.Key() in s.leads.value
            && FieldBucket(s.leads.value[q.Key()]) == a.bucket
            && (s.overrides.Some? ==>
                  (q.chat, q.manager) in s.overrides.value
                  && OverlayBucket(Some(s.overrides.value[(q.chat, q.manager)])) == Some(a.bucket))
  {
    var s := WriteStatus(site, path, store, q, fault).0;
    var was := if q.Key() in store.leads.value then store.leads.value[q.Key()] else HealedLead(q.now);
    assert s.leads.value[q.Key()] == MarkedLead(was, ActionOf(q.code).value, q.actor, q.now);
    MarkedResolves(was, q.code, q.actor, q.now);
  }

  lemma UnwrittenOverrides(site: Site, path: Path, store: Store, q: Request, fault: Fault)
    requires !WriteStatus(site, path, store, q, fault).1
    ensures WriteStatus(site, path, store, q, fault).0.overrides == store.overrides
  {
  }

  /**
  If the call returned True for a status code and a read goes to the store it wrote, then
  reading any dates that include the lead's finds the lead, its own fields resolve to the
  code's bucket, and with the override overlay, read in its own way, it resolves to that
  bucket exactly when the overlay's store was the authoritative one, was written too, holds
  no opposing override, or does not exist.
  */
  lemma ReaderSeesWrite(site: Site, desk: Desk, q: Request, w: World, dates: seq<string>, auth: Path,
                        look: Look, overlayLook: Look)
    requires site.registry.Readable? && Authoritative(site, desk.stores, q.manager, w.unreadable) == Some(auth)
    requires auth in desk.stores && Applied(site, desk, q, w).1 && q.code != "clear" && q.date in dates
    requires LeadStore(site, desk.stores, q.manager, look) == Some(auth)
    ensures ActionOf(q.code).Some?
    ensures var (bucket, stores) := (ActionOf(q.code).value.bucket, Applied(site, desk, q, w).0.stores);
            var lead := ReadLead(site, stores, q.Key(), dates, look);
            && lead.Some?
            && Bucket(lead.value, None) == bucket
            && (Bucket(lead.value, ReadOverlay(site, stores, q.Key(), overlayLook)) == bucket) ==
                 OverlayAgrees(site, desk, q, w, auth, bucket, overlayLook)
  {
    var stores := Applied(site, desk, q, w).0.stores;
    AfterSuccess(site, desk, q, w, auth, auth);
    ShapeKeepsResolution(site, desk.stores, stores, q.manager, w.unreadable, look);
    WrittenStore(site, auth, desk.stores[auth], q, w.fault(auth));
    OverlayAfter(site, desk, q, w, auth, overlayLook);
  }

  /** The override of the pressed lead in the store the overlay comes from. */
  lemma OverrideAfter(site: Site, desk: Desk, q: Request, w: World, auth: Path, look: Look, p: Path)
    requires Authoritative(site, desk.stores, q.manager, w.unreadable) == Some(auth)
    requires auth in desk.stores && Applied(site, desk, q, w).1 && q.code != "clear"
    requires OverlayStore(site, desk.stores, q.manager, look) == Some(p) && p in desk.stores
    ensures ActionOf(q.code).Some?
    ensures OverlayBucket(OverrideIn(Applied(site, desk, q, w).0.stores, p, q.Key())) ==
      if StoreAfter(site, desk, q, w, auth, p).1 then Some(ActionOf(q.code).value.bucket)
      else OverlayBucket(OverrideIn(desk.stores, p, q.Key()))
  {
    AfterSuccess(site, desk, q, w, auth, auth);
    WrittenStore(site, auth, desk.stores[auth], q, w.fault(auth));
    AfterSuccess(site, desk, q, w, auth, p);
    if StoreAfter(site, desk, q, w, auth, p).1 {
      OverrideChoice(desk.stores, ReaderCandidates(site, desk.stores, q.manager, look), look.unreadable);
      WrittenStore(site, p, desk.stores[p], q, w.fault(p));
    } else if p == auth || p in Mirrors(site, desk.stores, q.manager) {
      UnwrittenOverrides(site, p, desk.stores[p], q, w.fault(p));
    }
  }

  /** The overlay a read gets after the call: the code's, or what was there before. */
  lemma OverlayAfter(site: Site, desk: Desk, q: Request, w: World, auth: Path, look: Look)
    requires Authoritative(site, desk.stores, q.manager, w.unreadable) == Some(auth)
    requires auth in desk.stores && Applied(site, desk, q, w).1 && q.code != "clear"
    ensures ActionOf(q.code).Some?
    ensures var o := OverlayStore(site, desk.stores, q.manager, look);
            OverlayBucket(ReadOverlay(site, Applied(site, desk, q, w).0.stores, q.Key(), look)) ==
              if o.None? then None
              else if o.value in desk.stores && StoreAfter(site, desk, q, w, auth, o.value).1
              then Some(ActionOf(q.code).value.bucket)
              else OverlayBucket(OverrideIn(desk.stores, o.value, q.Key()))
  {
    var stores := Applied(site, desk, q, w).0.stores;
    AfterSuccess(site, desk, q, w, auth, auth);
    WrittenStore(site, auth, desk.stores[auth], q, w.fault(auth));
    ShapeKeepsResolution(site, desk.stores, stores, q.manager, w.unreadable, look);
    var o := OverlayStore(site, desk.stores, q.manager, look);
    if o.Some? && o.value in desk.stores { OverrideAfter(site, desk, q, w, auth, look, o.value); }
  }

  lemma {:induction false} OverrideChoice(stores: Stores, paths: seq<Path>, unreadable: set<Path>)
    ensures var o := FirstWithOverrides(stores, paths, unreadable); o.Some? ==> HasOverrides(stores, o.value)
  {
    if paths != [] { OverrideChoice(stores, paths[1..], unreadable); }
  }

  /**
  The documented promise is broken when the reader's store is momentarily unreadable to the
  writer: the call passes it over, writes another store, and returns True, while the store
  the reader uses is left as it was unless it happens to be the central mirror.
  */
  lemma PassedOverStoreIsStale(site: Site, desk: Desk, q: Request, w: World, auth: Path, reader: Path, look: Look)
    requires site.registry.Readable? && Authoritative(site, desk.stores, q.manager, w.unreadable) == Some(auth)
    requires LeadStore(site, desk.stores, q.manager, look) == Some(reader) && reader in w.unreadable
    requires auth in desk.stores && reader in desk.stores && Applied(site, desk, q, w).1
    requires reader !in {site.central, site.canonical(q.manager)}
    ensures auth != reader && reader in Applied(site, desk, q, w).0.stores
    ensures Applied(site, desk, q, w).0.stores[reader] == desk.stores[reader]
    ensures forall dates :: ReadLead(site, Applied(site, desk, q, w).0.stores, q.Key(), dates, look)
                         == ReadLead(site, desk.stores, q.Key(), dates, look)
  {
    WriterMeetsReader(site, desk.stores, q.manager, w.unreadable, look);
    AfterSuccess(site, desk, q, w, auth, reader);
    ShapeKeepsResolution(site, desk.stores, Applied(site, desk, q, w).0.stores, q.manager, w.unreadable, look);
    MirrorsAreASet(site, desk.stores, q.manager);
  }

  /** A manager "m" with a configured and a canonical store, and a press of "liq" on one lead. */
  function SmallSite(): Site { Site("central", mk => "cc", Readable(map["m" := Some("a")]), {}) }

  const PRESS := Request("m", 7, "2026-08-12", 1, "liq", 5, 100)

  function SmallStores(canonicalLeads: bool, overrides: Option<map<(int, string), Override>>): Stores {
    var leads := map[PRESS.Key() := HealedLead(0)];
    map["a" := Store(Some(leads), None, None),
        "cc" := Store(if canonicalLeads then Some(leads) else None, overrides, None)]
  }

  /** One such call, from start to end: "liq" is reported saved and the reader still says "na". */
  lemma PassedOverExample() returns (desk: Desk, w: World)
    ensures Applied(SmallSite(), desk, PRESS, w).1
    ensures var stores := Applied(SmallSite(), desk, PRESS, w).0.stores;
            var lead := ReadLead(SmallSite(), stores, PRESS.Key(), [PRESS.date], CLEAR);
            lead.Some? && Bucket(lead.value, ReadOverlay(SmallSite(), stores, PRESS.Key(), CLEAR)) == "na"
  {
    var (site, a, c) := (SmallSite(), "a", "cc");
    assert |a| == 1 && |c| == 2;
    desk := Desk(SmallStores(true, None), map[]);
    w := World({a}, p => NoFault, false);
    TwoCandidates(site, desk.stores, "m", a, c, {});
    TwoCandidates(site, desk.stores, "m", a, c, w.unreadable);
    PassedOverStoreIsStale(site, desk, PRESS, w, c, a, CLEAR);
    AfterSuccess(site, desk, PRESS, w, c, a);
    ShapeKeepsResolution(site, desk.stores, Applied(site, desk, PRESS, w).0.stores, "m", w.unreadable, CLEAR);
    BlankLead(HealedLead(0));
  }

  /**
  The overlay at odds with the row. The store with the leads has no override table; the
  canonical one has one, holding an earlier "geo", but no leads, so it is not written. "liq"
  is saved, the lead's own fields say so, and with the overlay it still counts as "geo".
  */
  lemma OverlayContradictsExample() returns (desk: Desk, w: World)
    ensures Applied(SmallSite(), desk, PRESS, w).1
    ensures !OverlayAgrees(SmallSite(), desk, PRESS, w, "a", "liquid", CLEAR)
    ensures var stores := Applied(SmallSite(), desk, PRESS, w).0.stores;
            var lead := ReadLead(SmallSite(), stores, PRESS.Key(), [PRESS.date], CLEAR);
            && lead.Some? && Bucket(lead.value, None) == "liquid"
            && Bucket(lead.value, ReadOverlay(SmallSite(), stores, PRESS.Key(), CLEAR)) == "geo"
  {
    var (site, a, c) := (SmallSite(), "a", "cc");
    assert |a| == 1 && |c| == 2;
    desk := Desk(SmallStores(false, Some(map[(7, "m") := EARLIER])), map[]);
    w := World({}, p => NoFault, false);
    TwoCandidates(site, desk.stores, "m", a, c, {});
    EarlierBucket();
    OverlayStays(site, desk, PRESS, w, a, c, "geo");
  }

  const EARLIER := Override("nonliquid", "geo", "manual_geo", 5, 50)

  lemma EarlierBucket()
    ensures OverlayBucket(Some(EARLIER)) == Some("geo") && ActionOf("liq").value.bucket == "liquid" != "geo"
  {
    assert |"geo"| == 3 && |"liquid"| == 6 && |"nonliquid"| == 9;
    PlainIsClean("geo");
    PlainIsClean("nonliquid");
  }

  /** An overlay store without leads is not written, and its override outvotes the row. */
  lemma OverlayStays(site: Site, desk: Desk, q: Request, w: World, a: Path, c: Path, bucket: string)
    requires site.registry.Readable? && Authoritative(site, desk.stores, q.manager, w.unreadable) == Some(a)
    requires a in desk.stores
    requires Applied(site, desk, q, w).1 && q.code != "clear" && ActionOf(q.code).Some?
    requires ActionOf(q.code).value.bucket != bucket
    requires LeadStore(site, desk.stores, q.manager, CLEAR) == Some(a)
    requires OverlayStore(site, desk.stores, q.manager, CLEAR) == Some(c) && a != c && c in desk.stores
    requires desk.stores[c].leads.None? && OverlayBucket(OverrideIn(desk.stores, c, q.Key())) == Some(bucket)
    ensures !OverlayAgrees(site, desk, q, w, a, ActionOf(q.code).value.bucket, CLEAR)
    ensures var stores := Applied(site, desk, q, w).0.stores;
            var lead := ReadLead(site, stores, q.Key(), [q.date], CLEAR);
            && lead.Some? && Bucket(lead.value, None) == ActionOf(q.code).value.bucket
            && Bucket(lead.value, ReadOverlay(site, stores, q.Key(), CLEAR)) == bucket
  {
    assert !StoreAfter(site, desk, q, w, a, c).1;
    ReaderSeesWrite(site, desk, q, w, [q.date], a, CLEAR, CLEAR);
    OverlayAfter(site, desk, q, w, a, CLEAR);
  }

  /** A manager with a configured and a canonical store: the walks over the two of them. */
  lemma TwoCandidates(site: Site, stores: Stores, mk: string, a: Path, c: Path, u: set<Path>)
    requires mk != "" && a != c && a in stores && c in stores
    requires Configured(site, mk) == [a] && site.canonical(mk) == c
    ensures Candidates(site, stores, mk) == [a, c]
    ensures FirstReadable(stores, [a, c], u)
         == if a !in u && HasLeads(stores, a) then Some(a)
            else if c !in u && HasLeads(stores, c) then Some(c) else None
    ensures FirstWithOverrides(stores, [a, c], u)
         == if a !in u && HasOverrides(stores, a) then Some(a)
            else if c !in u && HasOverrides(stores, c) then Some(c) else None
  {
    assert Configured(site, mk) + [site.canonical(mk)] == [a, c];
    assert [a, c][..1] == [a] && [a][..0] == [] && [a, c][1..] == [c] && [c][1..] == [];
    assert Existing(stores, []) == [];
    assert Existing(stores, [a]) == [a];
    assert FirstReadable(stores, [c], u) == if c !in u && HasLeads(stores, c) then Some(c) else None;
    assert FirstWithOverrides(stores, [c], u) == if c !in u && HasOverrides(stores, c) then Some(c) else None;
  }

  lemma BlankLead(lead: Lead)
    requires lead == HealedLead(lead.updatedAt)
    ensures FieldBucket(lead) == "na"
  {
    PlainIsClean("");
    assert forall i :: 0 <= i <= 0 ==> ""[i..] == "";
  }
}
