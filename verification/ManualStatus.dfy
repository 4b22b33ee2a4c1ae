/**
A manager presses a status button. The write resolves one authoritative store, commits
there first, then copies to mirrors; the statistics reader resolves its store on its own.
This is the degraded mode, in which both walk the manager's candidate stores.
*/
module ManualStatus {
  import opened Wrappers
  import opened Text

  type Path = string

  // ---- rows and stores ----

  datatype LeadKey = LeadKey(manager: string, chat: int, date: string)

  datatype Lead = Lead(
    status: string, qualityStatus: string, qualityBucket: string, qualityReason: string,
    nonliquidReason: string, country: string, age: Option<int>, trash: bool, trashReason: string,
    manual: bool, manualReason: string, manualBy: int, manualAt: Option<int>, updatedAt: int)

  datatype Override = Override(status: string, bucket: string, reason: string, actor: int, at: int)

  datatype Audit = Audit(key: LeadKey, oldStatus: string, newStatus: string, oldBucket: string, newBucket: string,
                         oldReason: string, newReason: string, actor: int, code: string, at: int)

  /** A database file; an absent table is `None`. */
  datatype Store = Store(
    leads: Option<map<LeadKey, Lead>>,
    overrides: Option<map<(int, string), Override>>,
    audit: Option<seq<Audit>>)

  type Stores = map<Path, Store>

  /** The manager registry: unreadable, or each manager's configured store, if any. */
  datatype Registry = Unavailable | Readable(rows: map<string, Option<Path>>)

  /** The fixed surroundings of a call. `cards` are the leads a lead_card event exists for. */
  datatype Site = Site(central: Path, canonical: string -> Path, registry: Registry, cards: set<LeadKey>)

  datatype Request = Request(manager: string, chat: int, date: string, card: int, code: string, actor: int, now: int)
  {
    function Key(): LeadKey { LeadKey(manager, chat, date) }
  }

  /** How one store behaves during the call. */
  datatype Fault = NoFault | AtConnect | HealFails | Late

  /** `unreadable` are the stores that fail while candidates are probed. */
  datatype World = World(unreadable: set<Path>, fault: Path -> Fault, touchFails: bool)

  datatype Action = Action(status: string, bucket: string, reason: string)

  function ActionOf(code: string): Option<Action> {
    match code
    case "liq" => Some(Action("liquid", "liquid", "manual_liquid_rf_18_plus"))
    case "geo" => Some(Action("nonliquid", "geo", "manual_geo"))
    case "u18" => Some(Action("nonliquid", "under18", "manual_under18"))
    case "na" => Some(Action("na", "na", "manual_na"))
    case "trash" => Some(Action("trash", "trash", "manual_trash"))
    case _ => None
  }

  // ---- one write to one store ----

  function FirstNonEmpty(a: string, b: string): string { if a != "" then a else b }

  function HealedLead(now: int): Lead {
    Lead("", "", "", "", "", "", None, false, "", false, "", 0, None, now)
  }

  predicate Healable(site: Site, path: Path, key: LeadKey, fault: Fault) {
    path != site.central && key in site.cards && !fault.HealFails?
  }

  function MarkedLead(lead: Lead, a: Action, actor: int, now: int): Lead {
    lead.(manual := true, manualReason := a.reason, manualBy := actor, manualAt := Some(now),
         qualityStatus := a.status, qualityBucket := a.bucket, qualityReason := a.reason,
         status := a.status, nonliquidReason := if a.status == "liquid" then "" else a.reason,
         trash := lead.trash || a.status == "trash",
         trashReason := if a.status == "trash" then a.reason else lead.trashReason, updatedAt := now)
  }

  function WithAudit(store: Store, entry: Audit): Store {
    if store.audit.None? then store else store.(audit := Some(store.audit.value + [entry]))
  }

  function ClearIn(store: Store, q: Request): Store
    requires store.leads.Some? && q.Key() in store.leads.value
  {
    var was := store.leads.value[q.Key()];
    var lead := was.(manual := false, manualReason := "", manualBy := 0, manualAt := None, updatedAt := q.now);
    var cleared := store.(
      leads := Some(store.leads.value[q.Key() := lead]),
      overrides := if store.overrides.None? then None else Some(store.overrides.value - {(q.chat, q.manager)}));
    WithAudit(cleared, Audit(q.Key(), was.status, was.status, was.qualityBucket, was.qualityBucket,
      FirstNonEmpty(was.qualityReason, was.nonliquidReason), "manual_clear", q.actor, q.code, q.now))
  }

  function MarkIn(store: Store, q: Request, a: Action): Store
    requires store.leads.Some? && q.Key() in store.leads.value
  {
    var was := store.leads.value[q.Key()];
    var entry := Override(a.status, a.bucket, a.reason, q.actor, q.now);
    var marked := store.(
      leads := Some(store.leads.value[q.Key() := MarkedLead(was, a, q.actor, q.now)]),
      overrides := if store.overrides.None? then None else Some(store.overrides.value[(q.chat, q.manager) := entry]));
    WithAudit(marked, Audit(q.Key(), was.status, a.status, was.qualityBucket, a.bucket,
      FirstNonEmpty(was.qualityReason, was.nonliquidReason), a.reason, q.actor, q.code, q.now))
  }

  /** The new store and the returned flag. The self-heal commits by itself. */
  function WriteStatus(site: Site, path: Path, store: Store, q: Request, fault: Fault): (Store, bool) {
    if q.manager == "" || q.chat == 0 || q.date == "" || fault.AtConnect? || store.leads.None? then (store, false)
    else if q.Key() !in store.leads.value && !Healable(site, path, q.Key(), fault) then (store, false)
    else
      var healed := if q.Key() in store.leads.value then store
                    else store.(leads := Some(store.leads.value[q.Key() := HealedLead(q.now)]));
      if fault.Late? then (healed, false)
      else if q.code == "clear" then (ClearIn(healed, q), true)
      else if ActionOf(q.code).None? then (healed, false)
      else (MarkIn(healed, q, ActionOf(q.code).value), true)
  }

  // ---- which stores ----

  /** The paths that exist, each once, in order. */
  function Existing(stores: Stores, paths: seq<Path>): seq<Path> {
    if paths == [] then []
    else
      var init := Existing(stores, paths[..|paths| - 1]);
      var last := paths[|paths| - 1];
      if last in stores && last !in init then init + [last] else init
  }

  function Configured(site: Site, mk: string): seq<Path> {
    if site.registry.Readable? && mk in site.registry.rows && site.registry.rows[mk].Some?
    then [site.registry.rows[mk].value] else []
  }

  /** The statistics candidates: the configured store, then the canonical one; never the central one as such. */
  function Candidates(site: Site, stores: Stores, mk: string): seq<Path> {
    if mk == "" then [] else Existing(stores, Configured(site, mk) + [site.canonical(mk)])
  }

  function MirrorPaths(site: Site, mk: string): seq<Path> {
    [site.central] + (if mk == "" then [] else [site.canonical(mk)])
  }

  function Mirrors(site: Site, stores: Stores, mk: string): seq<Path> {
    Existing(stores, MirrorPaths(site, mk))
  }

  predicate HasLeads(stores: Stores, p: Path) { p in stores && stores[p].leads.Some? }
  predicate HasOverrides(stores: Stores, p: Path) { p in stores && stores[p].overrides.Some? }

  /** The writer's choice: the first candidate seen to carry leads; one that cannot be read is passed over. */
  function FirstReadable(stores: Stores, paths: seq<Path>, unreadable: set<Path>): Option<Path> {
    if paths == [] then None
    else if paths[0] !in unreadable && HasLeads(stores, paths[0]) then Some(paths[0])
    else FirstReadable(stores, paths[1..], unreadable)
  }

  function Authoritative(site: Site, stores: Stores, mk: string, unreadable: set<Path>): Option<Path> {
    if site.registry.Unavailable? then None
    else FirstReadable(stores, Candidates(site, stores, mk), unreadable)
  }

  // ---- the reader ----

  /** How a read goes: whether the registry answers, and which stores fail. They are passed over. */
  datatype Look = Look(registryOk: bool, unreadable: set<Path>)

  const CLEAR := Look(true, {})

  /** Without the registry only the canonical store is left to try. */
  function ReaderCandidates(site: Site, stores: Stores, mk: string, look: Look): seq<Path> {
    if look.registryOk then Candidates(site, stores, mk)
    else if mk == "" then [] else Existing(stores, [site.canonical(mk)])
  }

  function FirstWithOverrides(stores: Stores, paths: seq<Path>, unreadable: set<Path>): Option<Path> {
    if paths == [] then None
    else if paths[0] !in unreadable && HasOverrides(stores, paths[0]) then Some(paths[0])
    else FirstWithOverrides(stores, paths[1..], unreadable)
  }

  function LeadStore(site: Site, stores: Stores, mk: string, look: Look): Option<Path> {
    FirstReadable(stores, ReaderCandidates(site, stores, mk, look), look.unreadable)
  }

  function OverlayStore(site: Site, stores: Stores, mk: string, look: Look): Option<Path> {
    FirstWithOverrides(stores, ReaderCandidates(site, stores, mk, look), look.unreadable)
  }

  /** The row for `key` among the leads read for a date list. */
  function ReadLead(site: Site, stores: Stores, key: LeadKey, dates: seq<string>, look: Look): Option<Lead> {
    var p := LeadStore(site, stores, key.manager, look);
    if p.Some? && p.value in stores && stores[p.value].leads.Some? && key in stores[p.value].leads.value &&
      key.date in dates
    then Some(stores[p.value].leads.value[key]) else None
  }

  function OverrideIn(stores: Stores, p: Path, key: LeadKey): Option<Override> {
    if HasOverrides(stores, p) && key.chat != 0 && (key.chat, key.manager) in stores[p].overrides.value
    then Some(stores[p].overrides.value[(key.chat, key.manager)]) else None
  }

  function ReadOverlay(site: Site, stores: Stores, key: LeadKey, look: Look): Option<Override> {
    var p := OverlayStore(site, stores, key.manager, look);
    if p.None? then None else OverrideIn(stores, p.value, key)
  }

  /** The bucket an override decides by itself, if it is one of the five. */
  function OverlayBucket(ov: Option<Override>): Option<string> {
    if ov.None? then None else OverlayOf(Clean(ov.value.bucket), Clean(ov.value.status))
  }

  function OverlayOf(b: string, st: string): Option<string> {
    if b == "liquid" || st == "liquid" then Some("liquid")
    else if b == "geo" || st == "geo" then Some("geo")
    else if b == "under18" || st == "under18" then Some("under18")
    else if b == "trash" || st == "trash" then Some("trash")
    else if b == "na" || st == "na" then Some("na")
    else None
  }

  /** The row's own fields, once cleaned. */
  function BucketOf(qb: string, qs: string, status: string, reason: string, country: string, age: Option<int>): string {
    if qb == "liquid" || status == "liquid" || qs == "liquid" then "liquid"
    else if qb == "geo" then "geo"
    else if qb == "under18" || qb == "age_missing" then "under18"
    else if qb == "trash" then "trash"
    else if qb == "na" || qb == "geo_missing" || qb == "age_and_geo_missing" || qb == "unknown" || qb == "unclear"
      then "na"
    else if status == "trash" || Contains(reason, "trash") || Contains(reason, "blocked")
         || Contains(reason, "send_failed") || Contains(reason, "inaccessible") || Contains(reason, "недоступ")
           then "trash"
    else if age.Some? && age.value < 18 then "under18"
    else if country != "" && country != "Россия" then "geo"
    else if Contains(reason, "age_missing") || Contains(reason, "нет 18") || Contains(reason, "under18") then "under18"
    else "na"
  }

  function FieldBucket(lead: Lead): string {
    BucketOf(Clean(lead.qualityBucket), Clean(lead.qualityStatus), Clean(lead.status),
             Clean(FirstNonEmpty(lead.qualityReason, lead.nonliquidReason)), Strip(lead.country), lead.age)
  }

  function Bucket(lead: Lead, ov: Option<Override>): string {
    var o := OverlayBucket(ov);
    if o.Some? then o.value else FieldBucket(lead)
  }

  // ---- the whole call ----

  datatype Desk = Desk(stores: Stores, touched: map<int, int>)

  /** Best-effort copies to every mirror but the authoritative store. */
  function Mirrored(site: Site, stores: Stores, paths: seq<Path>, auth: Path, q: Request, w: World): Stores {
    if paths == [] then stores
    else
      var p := paths[|paths| - 1];
      var done := Mirrored(site, stores, paths[..|paths| - 1], auth, q, w);
      if p == auth || p !in done then done else done[p := WriteStatus(site, p, done[p], q, w.fault(p)).0]
  }

  function Applied(site: Site, desk: Desk, q: Request, w: World): (Desk, bool) {
    var auth := Authoritative(site, desk.stores, q.manager, w.unreadable);
    if auth.None? || auth.value !in desk.stores then (desk, false)
    else
      var (store, ok) := WriteStatus(site, auth.value, desk.stores[auth.value], q, w.fault(auth.value));
      var stores := desk.stores[auth.value := store];
      if !ok then (desk.(stores := stores), false)
      else
        (Desk(Mirrored(site, stores, Mirrors(site, stores, q.manager), auth.value, q, w),
              if w.touchFails then desk.touched else desk.touched[q.card := q.now]), true)
  }

  /** The override the "already set" check looks at. */
  function AuthoritativeOverride(site: Site, stores: Stores, mk: string, chat: int, unreadable: set<Path>, readOk: bool)
    : Option<Override>
  {
    var p := Authoritative(site, stores, mk, unreadable);
    if p.None? || !readOk || !HasOverrides(stores, p.value) || (chat, mk) !in stores[p.value].overrides.value then None
    else Some(stores[p.value].overrides.value[(chat, mk)])
  }

  predicate SameStatus(ov: Option<Override>, code: string) {
    ov.Some? && ActionOf(code).Some? && ov.value.status == ActionOf(code).value.status
    && ov.value.bucket == ActionOf(code).value.bucket
  }

  /** The service that owns the stores. */
  class StatusDesk {
    const site: Site
    var stores: Stores
    var touched: map<int, int>

    constructor (site: Site, stores: Stores)
      ensures this.site == site && this.stores == stores && touched == map[]
    {
      this.site := site;
      this.stores := stores;
      touched := map[];
    }

    method WriteTo(path: Path, q: Request, fault: Fault) returns (ok: bool)
      modifies this
      ensures touched == old(touched)
      ensures if path in old(stores)
              then var (store, done) := WriteStatus(site, path, old(stores)[path], q, fault);
                   ok == done && stores == old(stores)[path := store]
              else !ok && stores == old(stores)
    {
      if path !in stores {
        return false;
      }
      var store := stores[path];
      assert stores[path := store] == stores;
      if q.manager == "" || q.chat == 0 || q.date == "" || fault.AtConnect? || store.leads.None? {
        return false;
      }
      if q.Key() !in store.leads.value {
        if !Healable(site, path, q.Key(), fault) {
          return false;
        }
        store := store.(leads := Some(store.leads.value[q.Key() := HealedLead(q.now)]));
        stores := stores[path := store];
      }
      if fault.Late? {
        return false;
      }
      if q.code == "clear" {
        stores := stores[path := ClearIn(store, q)];
        return true;
      }
      var action := ActionOf(q.code);
      if action.None? {
        return false;
      }
      stores := stores[path := MarkIn(store, q, action.value)];
      ok := true;
    }

    method ApplyManualStatus(q: Request, w: World) returns (ok: bool)
      modifies this
      ensures (Desk(stores, touched), ok) == Applied(site, Desk(old(stores), old(touched)), q, w)
    {
      var auth := Authoritative(site, stores, q.manager, w.unreadable);
      if auth.None? || auth.value !in stores {
        return false;
      }
      ok := WriteTo(auth.value, q, w.fault(auth.value));
      if !ok {
        return;
      }
      ghost var written := stores;
      var mirrors := Mirrors(site, stores, q.manager);
      assert mirrors[..|mirrors|] == mirrors;
      for i := 0 to |mirrors|
        invariant touched == old(touched)
        invariant stores == Mirrored(site, written, mirrors[..i], auth.value, q, w)
      {
        assert mirrors[..i + 1][..i] == mirrors[..i];
        if mirrors[i] != auth.value {
          var _ := WriteTo(mirrors[i], q, w.fault(mirrors[i]));
        }
      }
      if !w.touchFails {
        touched := touched[q.card := q.now];
      }
    }
  }
}
