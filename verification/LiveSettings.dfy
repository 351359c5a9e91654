/**
 Settings that change while the process runs, and the five things that enforce them: the poll
 schedule, the store policy, the drain rate, the store's budget and the outbox's retry budget.
 */
module LiveSettings {
  import opened Base
  import opened Configuration
  import Fields
  import SM = StoreModel
  import MS = MemoryStore

  datatype FieldSchedule = FieldSchedule(name: string, interval: Fields.Interval)

  function Schedules(sync: Sync): (r: seq<FieldSchedule>)
    ensures |r| == |sync.fields|
    ensures forall i :: 0 <= i < |r| ==> r[i] == FieldSchedule(sync.fields[i].name, sync.fields[i].interval)
  {
    seq(|sync.fields|, i requires 0 <= i < |sync.fields| => FieldSchedule(sync.fields[i].name, sync.fields[i].interval))
  }

  /** The reported settings and what every enforcer holds. */
  datatype Live = Live(
    current: ServerConfig,
    schedule: seq<FieldSchedule>,
    policy: Store,
    drain: nat,
    model: SM.Model,
    attempts: nat)

  /** Every enforcer holds what the settings report. */
  ghost predicate Enforced(l: Live) {
    && l.schedule == Schedules(l.current.sync)
    && l.policy == l.current.store
    && l.drain == l.current.relay.pollMs
    && l.model.budget == l.current.store.maxMemory
    && l.attempts == l.current.relay.maxAttempts
  }

  ghost predicate Healthy(c: Fields.Catalog, x: Codec, l: Live) {
    Enforced(l) && WellFormed(c, x, l.current) && SM.WithinCap(l.model)
  }

  datatype Request =
    | Change(patch: Patch)
    | Load(file: Option<ServerConfig>)     // the file as read, or nothing if it could not be
    | Traffic(event: SM.Event)             // reads recorded, swept and forgotten meanwhile

  ghost function Publishing(l: Live, next: ServerConfig): Live {
    Live(next, Schedules(next.sync), next.store, next.relay.pollMs,
         SM.Recap(l.model, next.store.maxMemory), AtLeastOne(next.relay.maxAttempts))
  }

  ghost function Adopt(l: Live, outcome: Outcome<ServerConfig>): Live {
    match outcome
    case Applied(next) => Publishing(l, next)
    case Malformed => l
    case Fixed => l
  }

  ghost function Handle(c: Fields.Catalog, x: Codec, l: Live, r: Request): Live {
    match r
    case Change(p) => Adopt(l, Patched(c, x, l.current, p))
    case Load(None) => l
    case Load(Some(loaded)) => Adopt(l, Patched(c, x, l.current, AsPatch(Configuration.Publish(x, loaded))))
    case Traffic(e) => l.(model := SM.Step(l.model, e))
  }

  /** Requests as a server can receive them; only a publish moves the budget. */
  ghost predicate Admissible(c: Fields.Catalog, x: Codec, r: Request) {
    match r
    case Change(p) => ParsedPatch(p)
    case Load(file) => file.Some? ==> WellFormed(c, x, file.value)
    case Traffic(e) => !e.Recapped?
  }

  ghost function Boot(cfg: ServerConfig): Live {
    Live(cfg, Schedules(cfg.sync), cfg.store, cfg.relay.pollMs, SM.Empty(cfg.store.maxMemory),
        AtLeastOne(cfg.relay.maxAttempts))
  }

  ghost function After(c: Fields.Catalog, x: Codec, l: Live, rs: seq<Request>): Live {
    if rs == [] then l else Handle(c, x, After(c, x, l, rs[..|rs| - 1]), rs[|rs| - 1])
  }

  lemma LoadPatchParsed(c: Fields.Catalog, x: Codec, loaded: ServerConfig)
    requires WellFormed(c, x, loaded)
    ensures ParsedPatch(AsPatch(Configuration.Publish(x, loaded)))
  {
  }

  lemma PublishingHealthy(c: Fields.Catalog, x: Codec, l: Live, next: ServerConfig)
    requires WellFormed(c, x, next) && SM.WithinCap(l.model)
    ensures Healthy(c, x, Publishing(l, next))
  {
    SM.StepWithinCap(l.model, SM.Recapped(next.store.maxMemory));
  }

  lemma HandleHealthy(c: Fields.Catalog, x: Codec, l: Live, r: Request)
    requires Fields.ValidCatalog(c) && Faithful(x) && Healthy(c, x, l) && Admissible(c, x, r)
    ensures Healthy(c, x, Handle(c, x, l, r))
  {
    match r {
      case Change(p) =>
        if Patched(c, x, l.current, p).Applied? {
          PatchedWellFormed(c, x, l.current, p);
          PublishingHealthy(c, x, l, Patched(c, x, l.current, p).value);
        }
      case Load(file) =>
        if file.Some? {
          var p := AsPatch(Configuration.Publish(x, file.value));
          LoadPatchParsed(c, x, file.value);
          if Patched(c, x, l.current, p).Applied? {
            PatchedWellFormed(c, x, l.current, p);
            PublishingHealthy(c, x, l, Patched(c, x, l.current, p).value);
          }
        }
      case Traffic(e) =>
        SM.StepWithinCap(l.model, e);
    }
  }

  /**
   In every run of accepted and refused patches, reloads and store traffic, each enforcer agrees
   with the reported settings and the store is within the reported budget or has no history.
   */
  lemma {:induction false} AlwaysEnforced(c: Fields.Catalog, x: Codec, cfg: ServerConfig, rs: seq<Request>)
    requires Fields.ValidCatalog(c) && Faithful(x) && WellFormed(c, x, cfg)
    requires forall r :: r in rs ==> Admissible(c, x, r)
    ensures Healthy(c, x, After(c, x, Boot(cfg), rs))
  {
    if rs == [] {
      SM.RunWithinCap(cfg.store.maxMemory, []);
    } else {
      assert rs[|rs| - 1] in rs;
      AlwaysEnforced(c, x, cfg, rs[..|rs| - 1]);
      HandleHealthy(c, x, After(c, x, Boot(cfg), rs[..|rs| - 1]), rs[|rs| - 1]);
    }
  }

  /**
   What a reload of a readable file does: nothing if it moves a fixed setting or schedules an
   unknown name; otherwise everything runs as the file says, except the removal policy and the
   inventory paths, and reloading it again changes nothing at all, stored reads included.
   */
  lemma ReloadEffect(c: Fields.Catalog, x: Codec, l: Live, loaded: ServerConfig)
    requires Fields.ValidCatalog(c) && Faithful(x) && Healthy(c, x, l) && WellFormed(c, x, loaded)
    ensures var once := Handle(c, x, l, Load(Some(loaded)));
            && Handle(c, x, once, Load(Some(loaded))) == once
            && if SameFixed(x, l.current, loaded) && AllListed(c, loaded.sync.fields) then
                 && once.current == loaded.(inventory := l.current.inventory,
                                            store := loaded.store.(cleanupOnRemove := l.current.store.cleanupOnRemove))
                 && Healthy(c, x, once)
               else once == l
  {
    ReloadExact(c, x, l.current, loaded);
    var once := Handle(c, x, l, Load(Some(loaded)));
    HandleHealthy(c, x, l, Load(Some(loaded)));
    if SameFixed(x, l.current, loaded) && AllListed(c, loaded.sync.fields) {
      ReloadExact(c, x, once.current, loaded);
      SM.RaiseEvictsNothing(once.model, once.current.store.maxMemory);
    }
  }

  // ---- The adapter -------------------------------------------------------------

  class Outbox {
    var maxAttempts: nat

    constructor (attempts: nat)
      ensures maxAttempts == AtLeastOne(attempts)
    {
      maxAttempts := if attempts < 1 then 1 else attempts;
    }

    method SetMaxAttempts(attempts: nat)
      modifies this
      ensures maxAttempts == AtLeastOne(attempts)
    {
      maxAttempts := if attempts < 1 then 1 else attempts;
    }
  }

  datatype Answer = Done(document: Document) | RefusedMalformed | RefusedFixed | RefusedSource

  class Settings {
    const catalog: Fields.Catalog
    const codec: Codec
    var current: ServerConfig
    var schedule: seq<FieldSchedule>
    var policy: Store
    var drain: nat
    const store: MS.MemoryStore
    const outbox: Outbox

    ghost function View(): Live
      reads this, store, outbox
    {
      Live(current, schedule, policy, drain, store.model, outbox.maxAttempts)
    }

    ghost predicate Valid()
      reads this, store, store.ledger, outbox
    {
      && Fields.ValidCatalog(catalog) && Faithful(codec)
      && store.Valid()
      && Healthy(catalog, codec, View())
    }

    /** Adopt the settings the store and outbox were already built with. */
    constructor (catalog: Fields.Catalog, codec: Codec, cfg: ServerConfig, store: MS.MemoryStore, outbox: Outbox)
      requires Fields.ValidCatalog(catalog) && Faithful(codec) && WellFormed(catalog, codec, cfg)
      requires store.Valid() && store.model.budget == cfg.store.maxMemory
      requires outbox.maxAttempts == AtLeastOne(cfg.relay.maxAttempts)
      ensures Valid() && this.store == store && this.outbox == outbox && current == cfg
      ensures this.catalog == catalog && this.codec == codec
    {
      this.catalog, this.codec, this.store, this.outbox := catalog, codec, store, outbox;
      current := cfg;
      schedule := Schedules(cfg.sync);
      policy := cfg.store;
      drain := cfg.relay.pollMs;
    }

    method PublishNext(next: ServerConfig) returns (applied: Document)
      requires Valid() && WellFormed(catalog, codec, next)
      modifies this, store, store.ledger, outbox
      ensures Valid() && View() == Publishing(old(View()), next)
      ensures applied == Configuration.Publish(codec, next)
    {
      PublishingHealthy(catalog, codec, View(), next);
      schedule := Schedules(next.sync);
      policy := next.store;
      drain := next.relay.pollMs;
      var evicted := store.SetBudget(next.store.maxMemory);
      outbox.SetMaxAttempts(next.relay.maxAttempts);
      applied := Configuration.Publish(codec, next);
      current := next;
    }

    /** A request: applied whole and enforced at once, or refused with nothing changed. */
    method Apply(patch: Patch) returns (answer: Answer)
      requires Valid() && ParsedPatch(patch)
      modifies this, store, store.ledger, outbox
      ensures Valid() && View() == Handle(catalog, codec, old(View()), Change(patch))
      ensures answer.Done? ==> answer.document == Configuration.Publish(codec, current)
      ensures answer.Done? <==> Patched(catalog, codec, old(current), patch).Applied?
      ensures answer == RefusedFixed <==> NamesFixed(codec, old(current), patch)
      ensures answer == RefusedMalformed <==>
              !NamesFixed(codec, old(current), patch) && CannotBeRead(catalog, codec, patch)
      ensures answer.Done? ==> Folded(catalog, codec, old(current), patch, current)
      ensures !answer.Done? ==> View() == old(View())
    {
      PatchRefusals(catalog, codec, current, patch);
      match Patched(catalog, codec, current, patch) {
        case Applied(next) =>
          PatchFolds(catalog, codec, current, patch);
          PatchedWellFormed(catalog, codec, current, patch);
          var applied := PublishNext(next);
          answer := Done(applied);
        case Malformed => answer := RefusedMalformed;
        case Fixed => answer := RefusedFixed;
      }
    }

    method Reload(file: Option<ServerConfig>) returns (answer: Answer)
      requires Valid() && (file.Some? ==> WellFormed(catalog, codec, file.value))
      modifies this, store, store.ledger, outbox
      ensures Valid() && View() == Handle(catalog, codec, old(View()), Load(file))
      ensures answer == RefusedSource <==> file.None?
      ensures file.Some? ==> (answer == RefusedFixed <==> !SameFixed(codec, old(current), file.value))
      ensures file.Some? ==> (answer == RefusedMalformed
                <==> SameFixed(codec, old(current), file.value) && !AllListed(catalog, file.value.sync.fields))
      ensures answer.Done? ==> answer.document == Configuration.Publish(codec, current)
      ensures !answer.Done? ==> View() == old(View())
    {
      match file {
        case None => answer := RefusedSource;
        case Some(loaded) =>
          LoadPatchParsed(catalog, codec, loaded);
          ReloadExact(catalog, codec, current, loaded);
          PatchRefusals(catalog, codec, current, AsPatch(Configuration.Publish(codec, loaded)));
          answer := Apply(AsPatch(Configuration.Publish(codec, loaded)));
      }
    }
  }
}
