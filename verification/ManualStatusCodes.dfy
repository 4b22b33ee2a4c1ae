/**
What the five buttons mean, in plain names: the bucket the statistics show after a press, the row
and the audit it leaves, and how that sits with the automatic decision for the same lead.
*/
module ManualStatusCodes {
  import opened Wrappers
  import opened Text
  import opened ManualStatus
  import opened ManualStatusLaws

  /** The bucket each button stands for. */
  const BUCKETS := map["liq" := "liquid", "geo" := "geo", "u18" := "under18", "na" := "na", "trash" := "trash"]

  /** The status and the reason each button writes. */
  const STATUSES := map["liq" := "liquid", "geo" := "nonliquid", "u18" := "nonliquid", "na" := "na", "trash" := "trash"]
  const REASONS := map["liq" := "manual_liquid_rf_18_plus", "geo" := "manual_geo", "u18" := "manual_under18",
                       "na" := "manual_na", "trash" := "manual_trash"]

  lemma ButtonsAreFive(code: string)
    ensures ActionOf(code).Some? <==> code in {"liq", "geo", "u18", "na", "trash"}
    ensures code in {"liq", "geo", "u18", "na", "trash"} ==>
      ActionOf(code) == Some(Action(STATUSES[code], BUCKETS[code], REASONS[code]))
  {
  }

  // ---- what is shown ----

  /**
  After a press reported as saved, a read of the written store shows the button's own bucket; with
  the override overlay it does so exactly while the overlay agrees.
  */
  lemma PressIsShown(site: Site, desk: Desk, q: Request, w: World, dates: seq<string>, auth: Path,
                     look: Look, overlayLook: Look)
    requires site.registry.Readable? && Authoritative(site, desk.stores, q.manager, w.unreadable) == Some(auth)
    requires auth in desk.stores && Applied(site, desk, q, w).1 && q.code != "clear" && q.date in dates
    requires LeadStore(site, desk.stores, q.manager, look) == Some(auth)
    ensures q.code in {"liq", "geo", "u18", "na", "trash"}
    ensures var stores := Applied(site, desk, q, w).0.stores;
            var lead := ReadLead(site, stores, q.Key(), dates, look);
            && lead.Some? && Bucket(lead.value, None) == BUCKETS[q.code]
            && (Bucket(lead.value, ReadOverlay(site, stores, q.Key(), overlayLook)) == BUCKETS[q.code] <==>
                  OverlayAgrees(site, desk, q, w, auth, BUCKETS[q.code], overlayLook))
  {
    ReaderSeesWrite(site, desk, q, w, dates, auth, look, overlayLook);
    ButtonsAreFive(q.code);
  }

  /** A lead nothing has been decided of yet. */
  predicate Undecided(lead: Lead) {
    && lead.qualityBucket == "" && lead.qualityStatus == "" && lead.status == ""
    && lead.qualityReason == "" && lead.nonliquidReason == ""
  }

  /**
  A button says what the automatic decision would: "u18" what it says of a lead known to be under
  eighteen, "geo" of an adult from another country, "na" of a lead of which nothing is known.
  */
  lemma ButtonsAgreeWithTheAutomaticDecision(lead: Lead)
    requires Undecided(lead)
    ensures lead.age.Some? && lead.age.value < 18 ==> FieldBucket(lead) == BUCKETS["u18"]
    ensures lead.age.Some? && lead.age.value >= 18 && Strip(lead.country) !in {"", "Россия"} ==>
      FieldBucket(lead) == BUCKETS["geo"]
    ensures lead.age.None? && Strip(lead.country) == "" ==> FieldBucket(lead) == BUCKETS["na"]
    ensures lead.age.Some? && lead.age.value >= 18 && Strip(lead.country) in {"", "Россия"} ==>
      FieldBucket(lead) == BUCKETS["na"]
  {
    EmptyTexts();
    NothingInEmpty();
  }

  lemma EmptyTexts()
    ensures Clean("") == "" && FirstNonEmpty("", "") == ""
  {
  }

  lemma NothingInEmpty()
    ensures forall part :: part != "" ==> !Contains("", part)
  {
    forall part: string | part != "" ensures !Contains("", part) { assert ""[0..] == ""; }
  }

  /** The text the decision reads: the quality reason, or the older field if there is none. */
  function ReasonOf(lead: Lead): string {
    Clean(if lead.qualityReason != "" then lead.qualityReason else lead.nonliquidReason)
  }

  predicate Mentions(text: string, marks: seq<string>) { exists m <- marks :: Contains(text, m) }

  const TRASH_MARKS := ["trash", "blocked", "send_failed", "inaccessible", "недоступ"]
  const AGE_MARKS := ["age_missing", "нет 18", "under18"]

  /**
  With no bucket decided and not liquid: trash exactly if the status or the reason says so; then an age
  under 18, then another country, then a reason that speaks of age, and "na" otherwise.
  */
  lemma ReasonsDecide(lead: Lead)
    requires lead.qualityBucket == "" && Clean(lead.status) != "liquid" && Clean(lead.qualityStatus) != "liquid"
    ensures var (young, abroad) := (lead.age.Some? && lead.age.value < 18, Strip(lead.country) !in {"", "Россия"});
            var trash := Clean(lead.status) == "trash" || Mentions(ReasonOf(lead), TRASH_MARKS);
            && (FieldBucket(lead) == "trash" <==> trash)
            && (FieldBucket(lead) == "geo" <==> !trash && !young && abroad)
            && (FieldBucket(lead) == "under18" <==>
                  !trash && (young || (!abroad && Mentions(ReasonOf(lead), AGE_MARKS))))
            && FieldBucket(lead) in {"trash", "geo", "under18", "na"}
  {
    EmptyTexts();
    AllMentioned(ReasonOf(lead));
    assert |"liquid"| == 6 && |"under18"| == 7 && |"geo"| == 3 && |"trash"| == 5 && |"na"| == 2;
  }

  lemma AllMentioned(r: string)
    ensures Mentions(r, TRASH_MARKS) <==>
      || Contains(r, "trash") || Contains(r, "blocked")
      || Contains(r, "send_failed") || Contains(r, "inaccessible") || Contains(r, "недоступ")
    ensures Mentions(r, AGE_MARKS) <==> Contains(r, "age_missing") || Contains(r, "нет 18") || Contains(r, "under18")
  {
    var (t, a) := (TRASH_MARKS, AGE_MARKS);
    assert t[0] in t && t[1] in t && t[2] in t && t[3] in t && t[4] in t;
    assert a[0] in a && a[1] in a && a[2] in a;
  }

  /** A bucket decided earlier is shown as it is; the missing-data buckets count as "na" or as under age. */
  lemma StoredBucketIsShown(lead: Lead)
    requires lead.status != "liquid" && lead.qualityStatus != "liquid"
    requires Plain(lead.qualityBucket) && Plain(lead.status) && Plain(lead.qualityStatus)
    ensures lead.qualityBucket in {"liquid", "geo", "under18", "na", "trash"} ==>
      FieldBucket(lead) == lead.qualityBucket
    ensures lead.qualityBucket in {"geo_missing", "age_and_geo_missing", "unknown", "unclear"} ==>
      FieldBucket(lead) == "na"
    ensures lead.qualityBucket == "age_missing" ==> FieldBucket(lead) == "under18"
  {
    PlainIsClean(lead.qualityBucket);
    PlainIsClean(lead.status);
    PlainIsClean(lead.qualityStatus);
  }

  /** Any of the three status fields makes a lead liquid, before anything else is looked at. */
  lemma LiquidComesFirst(lead: Lead)
    requires "liquid" in {Clean(lead.qualityBucket), Clean(lead.qualityStatus), Clean(lead.status)}
    ensures FieldBucket(lead) == "liquid"
  {
  }

  /** An override decides by its bucket, by its status if it has no bucket, and not at all if it names neither. */
  lemma OverrideIsShown(ov: Override)
    requires Plain(ov.bucket) && Plain(ov.status)
    ensures ov.bucket in {"liquid", "geo", "under18", "na", "trash"} && ov.status in {"", ov.bucket, "nonliquid"} ==>
      OverlayBucket(Some(ov)) == Some(ov.bucket)
    ensures ov.bucket == "" && ov.status in {"liquid", "geo", "under18", "na", "trash"} ==>
      OverlayBucket(Some(ov)) == Some(ov.status)
    ensures (forall b <- ["liquid", "geo", "under18", "na", "trash"] :: ov.bucket != b && ov.status != b) ==>
      OverlayBucket(Some(ov)) == None
  {
    PlainIsClean(ov.bucket);
    PlainIsClean(ov.status);
    assert var five := ["liquid", "geo", "under18", "na", "trash"];
           five[0] in five && five[1] in five && five[2] in five && five[3] in five && five[4] in five;
    assert |"liquid"| == 6 && |"nonliquid"| == 9 && |"under18"| == 7 && |"geo"| == 3 && |"trash"| == 5 && |"na"| == 2;
  }

  /** When an override's bucket and status name two of the five, the earlier in this order decides. */
  lemma OverrideOrder(ov: Override, i: nat)
    requires Plain(ov.bucket) && Plain(ov.status)
    requires var order := ["liquid", "geo", "under18", "trash", "na"];
             && i < 5 && order[i] in {ov.bucket, ov.status}
             && forall j :: 0 <= j < i ==> order[j] !in {ov.bucket, ov.status}
    ensures OverlayBucket(Some(ov)) == Some(["liquid", "geo", "under18", "trash", "na"][i])
  {
    PlainIsClean(ov.bucket);
    PlainIsClean(ov.status);
    var order := ["liquid", "geo", "under18", "trash", "na"];
    assert order[0] == "liquid";
    assert order[1] == "geo";
    assert order[2] == "under18";
    assert order[3] == "trash";
  }

  /** The "already set" check asks for the button's own status and bucket; chat zero has no override at all. */
  lemma RecognisedExactly(stores: Stores, p: Path, key: LeadKey, ov: Option<Override>, code: string)
    ensures SameStatus(ov, code) <==>
      code in BUCKETS && ov.Some? && ov.value.status == STATUSES[code] && ov.value.bucket == BUCKETS[code]
    ensures key.chat == 0 ==> OverrideIn(stores, p, key) == None
  {
    ButtonsAreFive(code);
  }

  // ---- what is written ----

  /** A press names its button, its bucket, who pressed and when, and leaves what is known of the person. */
  predicate Carries(lead: Lead, was: Lead, q: Request)
    requires q.code in BUCKETS
  {
    && lead.manual && lead.manualBy == q.actor && lead.manualAt == Some(q.now) && lead.updatedAt == q.now
    && lead.status == lead.qualityStatus == STATUSES[q.code] && lead.qualityBucket == BUCKETS[q.code]
    && lead.manualReason == lead.qualityReason == REASONS[q.code]
    && lead.nonliquidReason == (if q.code == "liq" then "" else REASONS[q.code])
    && (lead.trash <==> was.trash || q.code == "trash")
    && lead.trashReason == (if q.code == "trash" then REASONS[q.code] else was.trashReason)
    && lead.country == was.country && lead.age == was.age
  }

  /** The lead as the store had it, or a blank one put in its place. */
  function Before(store: Store, q: Request): Lead
    requires store.leads.Some?
  {
    if q.Key() in store.leads.value then store.leads.value[q.Key()]
    else Lead("", "", "", "", "", "", None, false, "", false, "", 0, None, q.now)
  }

  /** One store after a write that went through: this lead, its override, its audit row, and nothing else. */
  predicate Pressed(before: Store, after: Store, q: Request)
    requires before.leads.Some? && q.code in BUCKETS
  {
    && after.leads.Some? && q.Key() in after.leads.value
    && Carries(after.leads.value[q.Key()], Before(before, q), q)
    && (forall k <- before.leads.value :: k != q.Key() ==>
          k in after.leads.value && after.leads.value[k] == before.leads.value[k])
    && (forall k <- after.leads.value :: k == q.Key() || k in before.leads.value)
    && (before.overrides.Some? ==>
          && after.overrides == Some(before.overrides.value[(q.chat, q.manager) :=
               Override(STATUSES[q.code], BUCKETS[q.code], REASONS[q.code], q.actor, q.now)]))
    && (before.overrides.None? ==> after.overrides.None?)
    && (before.audit.Some? ==>
          var was := Before(before, q);
          after.audit == Some(before.audit.value + [Audit(q.Key(), was.status, STATUSES[q.code], was.qualityBucket,
            BUCKETS[q.code], if was.qualityReason != "" then was.qualityReason else was.nonliquidReason,
            REASONS[q.code], q.actor, q.code, q.now)]))
  }

  /** The store can take the press: it connects, has the lead or may create it, and does not fail late. */
  predicate Takes(site: Site, path: Path, store: Store, q: Request, fault: Fault) {
    && q.manager != "" && q.chat != 0 && q.date != "" && store.leads.Some?
    && fault != AtConnect && fault != Late
    && (q.Key() in store.leads.value || (path != site.central && q.Key() in site.cards && fault != HealFails))
  }

  lemma WriteSucceeds(site: Site, path: Path, store: Store, q: Request, fault: Fault)
    ensures WriteStatus(site, path, store, q, fault).1 <==>
      Takes(site, path, store, q, fault) && q.code in {"liq", "geo", "u18", "na", "trash", "clear"}
  {
    ButtonsAreFive(q.code);
  }

  lemma MarkIsExact(before: Store, healed: Store, q: Request)
    requires before.leads.Some? && q.code in BUCKETS
    requires healed == before.(leads := Some(before.leads.value[q.Key() := Before(before, q)]))
    ensures Pressed(before, MarkIn(healed, q, Action(STATUSES[q.code], BUCKETS[q.code], REASONS[q.code])), q)
  {
    assert STATUSES[q.code] == "liquid" <==> q.code == "liq";
    assert STATUSES[q.code] == "trash" <==> q.code == "trash";
  }

  /** A write goes through exactly when the store takes it and the code is known, and is then all there is to see. */
  lemma WriteIsExact(site: Site, path: Path, store: Store, q: Request, fault: Fault)
    ensures WriteStatus(site, path, store, q, fault).1 <==>
      Takes(site, path, store, q, fault) && q.code in {"liq", "geo", "u18", "na", "trash", "clear"}
    ensures WriteStatus(site, path, store, q, fault).1 && q.code != "clear" ==>
      Pressed(store, WriteStatus(site, path, store, q, fault).0, q)
  {
    WriteSucceeds(site, path, store, q, fault);
    if WriteStatus(site, path, store, q, fault).1 && q.code != "clear" {
      ButtonsAreFive(q.code);
      var healed := if q.Key() in store.leads.value then store
                    else store.(leads := Some(store.leads.value[q.Key() := HealedLead(q.now)]));
      assert healed.leads.value == store.leads.value[q.Key() := Before(store, q)];
      MarkIsExact(store, healed, q);
    }
  }

  /** A cleared lead loses its mark and its override, and keeps every field the statistics read. */
  lemma ClearIsExact(site: Site, path: Path, store: Store, q: Request, fault: Fault)
    requires q.code == "clear" && Takes(site, path, store, q, fault)
    ensures var after := WriteStatus(site, path, store, q, fault).0;
            && after.leads.Some? && q.Key() in after.leads.value
            && var (lead, was) := (after.leads.value[q.Key()], Before(store, q));
               && !lead.manual && lead.manualReason == "" && lead.manualBy == 0 && lead.manualAt.None?
               && lead.updatedAt == q.now
               && lead.(manual := was.manual, manualReason := was.manualReason, manualBy := was.manualBy,
                        manualAt := was.manualAt, updatedAt := was.updatedAt) == was
               && FieldBucket(lead) == FieldBucket(was)
               && (after.overrides.Some? <==> store.overrides.Some?)
               && (store.overrides.Some? ==> after.overrides.value == store.overrides.value - {(q.chat, q.manager)})
               && (store.audit.Some? ==>
                     after.audit == Some(store.audit.value + [Audit(q.Key(), was.status, was.status,
                       was.qualityBucket, was.qualityBucket,
                       if was.qualityReason != "" then was.qualityReason else was.nonliquidReason,
                       "manual_clear", q.actor, "clear", q.now)]))
  {
  }

  // ---- which stores ----

  predicate Usable(stores: Stores, p: Path, unreadable: set<Path>) {
    p in stores && p !in unreadable && stores[p].leads.Some?
  }

  /** The configured store if it is usable, else the canonical one if that is, else none. */
  function Resolved(stores: Stores, configured: Option<Path>, canonical: Path, unreadable: set<Path>): Option<Path> {
    if configured.Some? && Usable(stores, configured.value, unreadable) then configured
    else if Usable(stores, canonical, unreadable) then Some(canonical) else None
  }

  function ConfiguredStore(site: Site, mk: string): Option<Path> {
    match site.registry
    case Unavailable => None
    case Readable(rows) => if mk in rows then rows[mk] else None
  }

  lemma {:induction false} FirstReadableOfTwo(stores: Stores, a: Path, c: Path, u: set<Path>)
    ensures FirstReadable(stores, Existing(stores, [a, c]), u) == Resolved(stores, Some(a), c, u)
    ensures FirstReadable(stores, Existing(stores, [c]), u) == Resolved(stores, None, c, u)
  {
    ExistingTwo(stores, a, c);
    ExistingOne(stores, c);
    FirstOfNone(stores, u);
    var last := Existing(stores, [c]);
    if a in stores && a != c {
      assert ([a] + last)[0] == a && ([a] + last)[1..] == last;
    } else {
      assert [] + last == last;
    }
    if c in stores { assert last == [c] && [c][1..] == []; }
  }

  lemma FirstOfNone(stores: Stores, u: set<Path>)
    ensures FirstReadable(stores, [], u) == None
  {
  }

  /** The writer's store, and the reader's: the reader does without the configured one when the registry is silent. */
  lemma StoresAreResolvedInOrder(site: Site, stores: Stores, mk: string, unreadable: set<Path>, look: Look)
    requires mk != ""
    ensures Authoritative(site, stores, mk, unreadable) ==
      if site.registry.Unavailable? then None
      else Resolved(stores, ConfiguredStore(site, mk), site.canonical(mk), unreadable)
    ensures LeadStore(site, stores, mk, look) ==
      Resolved(stores, if look.registryOk then ConfiguredStore(site, mk) else None, site.canonical(mk), look.unreadable)
  {
    var (some, c) := (ConfiguredStore(site, mk), site.canonical(mk));
    FirstReadableOfTwo(stores, if some.Some? then some.value else c, c, unreadable);
    FirstReadableOfTwo(stores, if some.Some? then some.value else c, c, look.unreadable);
    if some.Some? {
      assert Configured(site, mk) == [some.value] && [some.value] + [c] == [some.value, c];
    } else {
      assert Configured(site, mk) == [] && [] + [c] == [c];
    }
  }

  // ---- the whole call ----

  /** The stores a press is copied to. */
  predicate IsMirror(site: Site, q: Request, p: Path) { p == site.central || p == site.canonical(q.manager) }

  /**
  The call, store by store. It succeeds exactly when the authoritative store takes the press. Then
  that store and each mirror that takes it too carry it, no other store changes, and the card's
  throttle is set unless that write fails.
  */
  lemma CallIsExact(site: Site, desk: Desk, q: Request, w: World, auth: Path, p: Path)
    requires Authoritative(site, desk.stores, q.manager, w.unreadable) == Some(auth)
    requires auth in desk.stores && p in desk.stores
    ensures Applied(site, desk, q, w).1 <==>
      Takes(site, auth, desk.stores[auth], q, w.fault(auth)) && q.code in {"liq", "geo", "u18", "na", "trash", "clear"}
    ensures Applied(site, desk, q, w).1 ==>
      var d := Applied(site, desk, q, w).0;
      && p in d.stores
      && d.touched == (if w.touchFails then desk.touched else desk.touched[q.card := q.now])
      && (p != auth && !IsMirror(site, q, p) ==> d.stores[p] == desk.stores[p])
      && (q.code != "clear" && (p == auth || IsMirror(site, q, p)) && Takes(site, p, desk.stores[p], q, w.fault(p)) ==>
            Pressed(desk.stores[p], d.stores[p], q))
  {
    WriteIsExact(site, auth, desk.stores[auth], q, w.fault(auth));
    if Applied(site, desk, q, w).1 {
      AfterSuccess(site, desk, q, w, auth, p);
      MirrorsAreASet(site, desk.stores, q.manager);
      WriteIsExact(site, p, desk.stores[p], q, w.fault(p));
      if IsMirror(site, q, p) && q.manager != "" { MirrorsAreBoth(site, desk.stores, q.manager, p); }
    }
  }

  lemma MirrorsAreBoth(site: Site, stores: Stores, mk: string, p: Path)
    requires mk != "" && p in stores && (p == site.central || p == site.canonical(mk))
    ensures p in Mirrors(site, stores, mk)
  {
    ExistingIsASet(stores, MirrorPaths(site, mk));
    assert MirrorPaths(site, mk)[0] == site.central && MirrorPaths(site, mk)[1] == site.canonical(mk);
  }

  /** After a saved press the store's override is recognised as that button's and no other's. */
  lemma OnlyThatPressIsRecognised(site: Site, desk: Desk, q: Request, w: World, auth: Path, unreadable: set<Path>,
          readOk: bool, code: string)
    requires Authoritative(site, desk.stores, q.manager, w.unreadable) == Some(auth)
    requires Authoritative(site, desk.stores, q.manager, unreadable) == Some(auth)
    requires auth in desk.stores && desk.stores[auth].overrides.Some?
    requires Applied(site, desk, q, w).1 && q.code != "clear" && code in BUCKETS
    ensures var stores := Applied(site, desk, q, w).0.stores;
            SameStatus(AuthoritativeOverride(site, stores, q.manager, q.chat, unreadable, readOk), code) <==>
              readOk && code == q.code
  {
    CallIsExact(site, desk, q, w, auth, auth);
    AfterSuccess(site, desk, q, w, auth, auth);
    ShapeKeepsResolution(site, desk.stores, Applied(site, desk, q, w).0.stores, q.manager, unreadable, CLEAR);
    ButtonsAreFive(code);
    BucketsDiffer(code, q.code);
  }

  lemma BucketsDiffer(a: string, b: string)
    requires a in BUCKETS && b in BUCKETS
    ensures BUCKETS[a] == BUCKETS[b] <==> a == b
  {
    assert |"liquid"| == 6 && |"geo"| == 3 && |"under18"| == 7 && |"na"| == 2 && |"trash"| == 5;
  }
}
