/**
 The server configuration, the document it is published as, and the patch that changes it.
 A published document sent back as a patch must change nothing; reloading a file rests on it.
 */
module Configuration {
  import opened Base
  import opened Fields
  import Units

  const NANOS: nat := 1_000_000_000
  const FOREVER: string := "forever"
  const NEVER: string := "never"
  const UNLIMITED: string := "unlimited"

  datatype Retention = Forever | Age(nanos: nat) | Since(floor: string)

  datatype Path = Path(units: seq<nat>)
  datatype Inventory = Inventory(configPath: Path, runtimePath: Option<Path>)
  datatype Relay = Relay(pollMs: nat, maxAttempts: nat)
  datatype Sync = Sync(inherited: Interval, fields: seq<FieldConfig>)
  datatype Store = Store(retain: Retention, cleanup: Option<nat>, maxMemory: Option<nat>, cleanupOnRemove: bool)
  datatype Http = Http(host: string, port: nat)
  datatype ServerConfig = ServerConfig(inventory: Inventory, relay: Relay, sync: Sync, store: Store, http: Http)

  // ---- The file as parsed -----------------------------------------------------

  datatype RawConfig = RawConfig(
    defaults: RawDefaults,
    inventory: Inventory,
    pollMs: Option<nat>, maxAttempts: Option<nat>,
    seconds: Option<nat>, fields: Option<seq<RawField>>,
    retain: Option<Retention>, cleanup: Option<nat>, maxMemory: Option<nat>, cleanupOnRemove: Option<bool>,
    host: Option<string>, port: Option<nat>)

  datatype RawDefaults = RawDefaults(
    seconds: Option<nat>, fields: Option<seq<RawField>>,
    host: Option<string>, port: Option<nat>)

  function Or<T>(a: Option<T>, b: Option<T>): Option<T> {
    if a.Some? then a else b
  }

  function OrElse<T>(a: Option<T>, b: T): T {
    if a.Some? then a.value else b
  }

  function HandleCleanup(nanos: nat): Option<nat> {
    if nanos == 0 then None else Some(nanos)
  }

  function HandleBudget(bytes: nat): Option<nat> {
    if bytes > 0 then Some(bytes) else None
  }

  function AtLeastOne(n: nat): nat {
    if n < 1 then 1 else n
  }

  function ResolveConfig(c: Catalog, raw: RawConfig): ServerConfig {
    var inherited := HandleInterval(OrElse(Or(raw.seconds, raw.defaults.seconds), 30));
    var listed := OrElse(Or(raw.fields, raw.defaults.fields), [RawField(ALL_FIELDS, None)]);
    ServerConfig(
      raw.inventory,
      Relay(AtLeastOne(OrElse(raw.pollMs, 250)), AtLeastOne(OrElse(raw.maxAttempts, 3))),
      Sync(inherited, Schedule(c, Canon(c, listed), inherited)),
      Store(OrElse(raw.retain, Age(86_400 * NANOS)),
            HandleCleanup(OrElse(raw.cleanup, 300 * NANOS)),
            HandleBudget(OrElse(raw.maxMemory, 256 * 1024 * 1024)),
            OrElse(raw.cleanupOnRemove, false)),
      Http(OrElse(Or(raw.host, raw.defaults.host), "127.0.0.1"), OrElse(Or(raw.port, raw.defaults.port), 8080)))
  }

  // ---- Text, through libraries this model does not contain ---------------------

  /** `humantime`, `chrono`, the float path of a size, and how a path is displayed. */
  datatype Codec = Codec(
    parseDuration: string -> Option<nat>,
    renderDuration: nat -> string,
    parseInstant: string -> Option<string>,
    parseFraction: (string, nat) -> Option<nat>,
    display: Path -> string)

  predicate IgnoreCase(a: string, word: string) {
    Units.Lower(a) == word
  }

  /** `str::parse::<u64>`, which also takes a leading plus sign. */
  function ParseInteger(s: string): Option<nat> {
    if s != [] && s[0] == '+' then Units.ParseU64(s[1..]) else Units.ParseU64(s)
  }

  /** Text no sentinel, integer or trimming touches. */
  ghost predicate Ordinary(t: string) {
    && Units.Trimmed(t) && ParseInteger(t).None?
    && !IgnoreCase(t, FOREVER) && !IgnoreCase(t, NEVER)
  }

  /** What is asked of the libraries: what they render, they read back. */
  ghost predicate Faithful(x: Codec) {
    && (forall d: nat :: d > 0 ==> Ordinary(x.renderDuration(d)) && x.parseDuration(x.renderDuration(d)) == Some(d))
    && (forall t :: x.parseInstant(t).Some? ==>
          var floor := x.parseInstant(t).value;
          Ordinary(floor) && x.parseDuration(floor) == None && x.parseInstant(floor) == Some(floor))
    && (forall n, s :: x.parseFraction(n, s).Some? ==> x.parseFraction(n, s).value <= U64_MAX)
  }

  /** The libraries' part can be played: durations written as a count of nanoseconds, no instants. */
  function PlainCodec(): Codec {
    Codec(
      (t: string) => if |t| > 2 && t[|t| - 2..] == "ns" && Units.AllDigits(t[..|t| - 2])
          then Some(Units.Value(t[..|t| - 2])) else None,
      (n: nat) => Units.Decimal(n) + "ns",
      (t: string) => None,
      (n: string, s: nat) => None,
      (p: Path) => "")
  }

  lemma DigitsThenUnit(n: string)
    requires n != [] && Units.AllDigits(n)
    ensures Ordinary(n + "ns")
  {
    var t := n + "ns";
    assert t[0] == n[0] && t[1..][|t| - 2] == t[|t| - 1] == 's';
    assert !Units.AllDigits(t) && !Units.AllDigits(t[1..]);
    assert Units.IsDigit(n[0]) && Units.Lower(t)[0] == n[0];
  }

  lemma PlainCodecFaithful()
    ensures Faithful(PlainCodec())
  {
    var x := PlainCodec();
    forall d: nat | d > 0
      ensures Ordinary(x.renderDuration(d)) && x.parseDuration(x.renderDuration(d)) == Some(d)
    {
      var n := Units.Decimal(d);
      Units.DecimalValue(d);
      DigitsThenUnit(n);
      var t := n + "ns";
      assert t[..|t| - 2] == n && t[|t| - 2..] == "ns";
    }
  }

  function ReadDuration(x: Codec, text: string): Option<nat> {
    var t := Units.Trim(text);
    match ParseInteger(t)
    case Some(secs) => Some(secs * NANOS)
    case None => x.parseDuration(t)
  }

  function ReadRetention(x: Codec, text: string): Option<Retention> {
    var t := Units.Trim(text);
    if IgnoreCase(t, FOREVER) then Some(Forever)
    else
      match ReadDuration(x, t)
      case Some(age) => if age == 0 then None else Some(Age(age))
      case None =>
        match x.parseInstant(t)
        case Some(floor) => Some(Since(floor))
        case None => None
  }

  function ReadCleanup(x: Codec, text: string): Option<nat> {
    if IgnoreCase(Units.Trim(text), NEVER) then Some(0) else ReadDuration(x, text)
  }

  function ReadBudget(x: Codec, text: string): Option<nat> {
    if IgnoreCase(Units.Trim(text), UNLIMITED) then Some(0)
    else
      match Units.Bytes(text)
      case Ok(bytes) => Some(bytes)
      case Fraction(number, scale) => x.parseFraction(number, scale)
      case UnknownUnit => None
      case NotANumber => None
      case TooLarge => None
  }

  // ---- Documents and patches ----------------------------------------------------

  datatype SyncSettings = SyncSettings(seconds: nat, fields: seq<RawField>)
  datatype StoreSettings = StoreSettings(retain: string, cleanup: string, maxMemory: string)
  datatype InventorySettings = InventorySettings(configPath: string, runtimePath: Option<string>)
  datatype Document = Document(
    sync: SyncSettings, store: StoreSettings, relay: Relay, http: Http, inventory: InventorySettings)

  datatype SyncPatch = SyncPatch(seconds: Option<nat>, fields: Option<seq<RawField>>)
  datatype StorePatch = StorePatch(retain: Option<string>, cleanup: Option<string>, maxMemory: Option<string>)
  datatype RelayPatch = RelayPatch(pollMs: Option<nat>, maxAttempts: Option<nat>)
  datatype InventoryPatch = InventoryPatch(configPath: Option<string>, runtimePath: Option<string>)
  datatype Patch = Patch(sync: Option<SyncPatch>, store: Option<StorePatch>, relay: Option<RelayPatch>,
                         http: Option<Http>, inventory: Option<InventoryPatch>)

  datatype Outcome<+T> = Applied(value: T) | Malformed | Fixed

  function Secs(i: Interval): nat {
    if i.Some? then i.value else 0
  }

  function Restate(fields: seq<FieldConfig>): (r: seq<RawField>)
    ensures |r| == |fields|
    ensures forall i :: 0 <= i < |r| ==> r[i] == RawField(fields[i].name, Some(Secs(fields[i].interval)))
  {
    seq(|fields|, i requires 0 <= i < |fields| => RawField(fields[i].name, Some(Secs(fields[i].interval))))
  }

  function Inheriting(fields: seq<FieldConfig>): (r: seq<RawField>)
    ensures |r| == |fields|
    ensures forall i :: 0 <= i < |r| ==> r[i] == RawField(fields[i].name, None)
  {
    seq(|fields|, i requires 0 <= i < |fields| => RawField(fields[i].name, None))
  }

  function RenderRetention(x: Codec, r: Retention): string {
    match r
    case Forever => FOREVER
    case Age(nanos) => x.renderDuration(nanos)
    case Since(floor) => floor
  }

  function Publish(x: Codec, cfg: ServerConfig): Document {
    Document(
      SyncSettings(Secs(cfg.sync.inherited), Restate(cfg.sync.fields)),
      StoreSettings(
        RenderRetention(x, cfg.store.retain),
        if cfg.store.cleanup.Some? then x.renderDuration(cfg.store.cleanup.value) else NEVER,
        if cfg.store.maxMemory.Some? then Units.FormatBytes(cfg.store.maxMemory.value) else UNLIMITED),
      Relay(if cfg.relay.pollMs <= U64_MAX then cfg.relay.pollMs else U64_MAX, cfg.relay.maxAttempts),
      cfg.http,
      InventorySettings(
        x.display(cfg.inventory.configPath),
        if cfg.inventory.runtimePath.Some? then Some(x.display(cfg.inventory.runtimePath.value)) else None))
  }

  function AsPatch(d: Document): Patch {
    Patch(
      Some(SyncPatch(Some(d.sync.seconds), Some(d.sync.fields))),
      Some(StorePatch(Some(d.store.retain), Some(d.store.cleanup), Some(d.store.maxMemory))),
      Some(RelayPatch(Some(d.relay.pollMs), Some(d.relay.maxAttempts))),
      Some(d.http),
      Some(InventoryPatch(Some(d.inventory.configPath), d.inventory.runtimePath)))
  }

  predicate Known(c: Catalog, name: string) {
    name == ALL_FIELDS || c.find(name).Some?
  }

  predicate AllKnown(c: Catalog, fields: seq<RawField>) {
    forall i :: 0 <= i < |fields| ==> Known(c, fields[i].name)
  }

  function PatchedRelay(current: Relay, patch: Option<RelayPatch>): Relay {
    match patch
    case None => current
    case Some(p) =>
      Relay(if p.pollMs.Some? then AtLeastOne(p.pollMs.value) else current.pollMs,
            if p.maxAttempts.Some? then AtLeastOne(p.maxAttempts.value) else current.maxAttempts)
  }

  function PatchedSync(c: Catalog, current: Sync, patch: Option<SyncPatch>): Outcome<Sync> {
    if patch.None? || (patch.value.seconds.None? && patch.value.fields.None?) then Applied(current)
    else
      var p := patch.value;
      var inherited := if p.seconds.Some? then HandleInterval(p.seconds.value) else current.inherited;
      if p.fields.Some? && !AllKnown(c, p.fields.value) then Malformed
      else
        var raw := if p.fields.Some? then p.fields.value else Inheriting(current.fields);
        Applied(Sync(inherited, Schedule(c, Canon(c, raw), inherited)))
  }

  function PatchedStore(x: Codec, current: Store, patch: Option<StorePatch>): Outcome<Store> {
    match patch
    case None => Applied(current)
    case Some(p) =>
      var retain := if p.retain.Some? then ReadRetention(x, p.retain.value) else Some(current.retain);
      var cleanup := if p.cleanup.Some? then ReadCleanup(x, p.cleanup.value) else Some(OrElse(current.cleanup, 0));
      var budget := if p.maxMemory.Some? then ReadBudget(x, p.maxMemory.value) else Some(OrElse(current.maxMemory, 0));
      if retain.None? || cleanup.None? || budget.None? then Malformed
      else
        Applied(Store(retain.value,
                      if p.cleanup.Some? then HandleCleanup(cleanup.value) else current.cleanup,
                      if p.maxMemory.Some? then HandleBudget(budget.value) else current.maxMemory,
                      current.cleanupOnRemove))
  }

  predicate MovesFixed(x: Codec, current: ServerConfig, p: Patch) {
    || (p.http.Some? && p.http.value != current.http)
    || (p.inventory.Some? && p.inventory.value.configPath.Some?
        && p.inventory.value.configPath.value != x.display(current.inventory.configPath))
    || (p.inventory.Some? && p.inventory.value.runtimePath.Some?
        && p.inventory.value.runtimePath != Publish(x, current).inventory.runtimePath)
  }

  /** What the settings would become; the fixed settings are checked before anything else is read. */
  function Patched(c: Catalog, x: Codec, current: ServerConfig, p: Patch): Outcome<ServerConfig> {
    if MovesFixed(x, current, p) then Fixed
    else
      var sync, store := PatchedSync(c, current.sync, p.sync), PatchedStore(x, current.store, p.store);
      if !sync.Applied? || !store.Applied? then Malformed
      else
        Applied(ServerConfig(current.inventory, PatchedRelay(current.relay, p.relay),
                             sync.value, store.value, current.http))
  }

  // ---- Well-formed settings -------------------------------------------------------

  predicate Positive(i: Interval) {
    i.Some? ==> i.value > 0
  }

  ghost predicate WellFormedSync(c: Catalog, s: Sync) {
    && Positive(s.inherited)
    && (forall i :: 0 <= i < |s.fields| ==>
          && s.fields[i].name != ALL_FIELDS && Canonical(c, s.fields[i].name) == s.fields[i].name
          && Positive(s.fields[i].interval))
    && (forall i, j :: 0 <= i < j < |s.fields| ==> s.fields[i].name != s.fields[j].name)
  }

  ghost predicate WellFormedRetention(x: Codec, r: Retention) {
    match r
    case Forever => true
    case Age(nanos) => nanos > 0
    case Since(floor) => x.parseInstant(floor) == Some(floor)
  }

  ghost predicate WellFormedStore(x: Codec, s: Store) {
    && WellFormedRetention(x, s.retain)
    && (s.cleanup.Some? ==> s.cleanup.value > 0)
    && (s.maxMemory.Some? ==> 0 < s.maxMemory.value <= U64_MAX)
  }

  ghost predicate WellFormed(c: Catalog, x: Codec, cfg: ServerConfig) {
    && WellFormedSync(c, cfg.sync) && WellFormedStore(x, cfg.store)
    && 1 <= cfg.relay.pollMs <= U64_MAX && cfg.relay.maxAttempts >= 1
  }

  /** What deserialising a file or a request guarantees. */
  ghost predicate Parsed(x: Codec, raw: RawConfig) {
    && (raw.retain.Some? ==> WellFormedRetention(x, raw.retain.value))
    && (raw.maxMemory.Some? ==> raw.maxMemory.value <= U64_MAX)
    && (raw.pollMs.Some? ==> raw.pollMs.value <= U64_MAX)
  }

  ghost predicate ParsedPatch(p: Patch) {
    p.relay.Some? && p.relay.value.pollMs.Some? ==> p.relay.value.pollMs.value <= U64_MAX
  }

  lemma {:induction false} MentionsCanonical(c: Catalog, raw: seq<RawField>, n: string)
    requires ValidCatalog(c) && n in Mentions(c, Canon(c, raw))
    ensures n != ALL_FIELDS && Canonical(c, n) == n
  {
    var last := raw[|raw| - 1];
    var init := raw[..|raw| - 1];
    assert Canon(c, raw)[..|raw| - 1] == Canon(c, init);
    if n in Mentions(c, Canon(c, init)) {
      MentionsCanonical(c, init, n);
    }
  }

  lemma {:induction false} FillPositive(raw: seq<RawField>, inherited: Interval)
    requires Positive(inherited)
    ensures Positive(Fill(raw, inherited))
  {
    if raw != [] {
      FillPositive(raw[1..], inherited);
    }
  }

  lemma {:induction false} ExplicitPositive(raw: seq<RawField>, inherited: Interval, n: string)
    requires Positive(inherited)
    ensures Explicit(raw, inherited, n).Some? ==> Positive(Explicit(raw, inherited, n).value)
  {
    if raw != [] {
      ExplicitPositive(raw[..|raw| - 1], inherited, n);
    }
  }

  /** Whatever was written, the resolved schedule is well formed. */
  lemma ScheduleWellFormed(c: Catalog, raw: seq<RawField>, inherited: Interval)
    requires ValidCatalog(c) && Positive(inherited)
    ensures WellFormedSync(c, Sync(inherited, Schedule(c, Canon(c, raw), inherited)))
  {
    var entries := Canon(c, raw);
    var fields := Schedule(c, entries, inherited);
    var names := FirstOnly(Mentions(c, entries));
    FirstOnlyInOrder(Mentions(c, entries));
    InOrderDistinct(Mentions(c, entries), names);
    forall i | 0 <= i < |fields|
      ensures fields[i].name != ALL_FIELDS && Canonical(c, fields[i].name) == fields[i].name
      ensures Positive(fields[i].interval)
    {
      assert names[i] in names;
      MentionsCanonical(c, raw, names[i]);
      FillPositive(entries, inherited);
      ExplicitPositive(entries, inherited, names[i]);
    }
  }

  lemma ResolvedWellFormed(c: Catalog, x: Codec, raw: RawConfig)
    requires ValidCatalog(c) && Parsed(x, raw)
    ensures WellFormed(c, x, ResolveConfig(c, raw))
  {
    var cfg := ResolveConfig(c, raw);
    ScheduleWellFormed(c, OrElse(Or(raw.fields, raw.defaults.fields), [RawField(ALL_FIELDS, None)]),
        cfg.sync.inherited);
  }

  lemma BytesBounded(text: string)
    ensures Units.Bytes(text).Ok? ==> Units.Bytes(text).bytes <= U64_MAX
  {
  }

  lemma PatchedSyncWellFormed(c: Catalog, current: Sync, p: Option<SyncPatch>)
    requires ValidCatalog(c) && WellFormedSync(c, current) && PatchedSync(c, current, p).Applied?
    ensures WellFormedSync(c, PatchedSync(c, current, p).value)
  {
    if p.Some? && (p.value.seconds.Some? || p.value.fields.Some?) {
      var raw := if p.value.fields.Some? then p.value.fields.value else Inheriting(current.fields);
      ScheduleWellFormed(c, raw, PatchedSync(c, current, p).value.inherited);
    }
  }

  lemma ReadRetentionWellFormed(x: Codec, text: string)
    requires Faithful(x) && ReadRetention(x, text).Some?
    ensures WellFormedRetention(x, ReadRetention(x, text).value)
  {
  }

  lemma PatchedStoreWellFormed(x: Codec, current: Store, p: Option<StorePatch>)
    requires Faithful(x) && WellFormedStore(x, current) && PatchedStore(x, current, p).Applied?
    ensures WellFormedStore(x, PatchedStore(x, current, p).value)
  {
    if p.Some? && p.value.retain.Some? {
      ReadRetentionWellFormed(x, p.value.retain.value);
    }
    if p.Some? && p.value.maxMemory.Some? {
      BytesBounded(p.value.maxMemory.value);
    }
  }

  lemma PatchedWellFormed(c: Catalog, x: Codec, current: ServerConfig, p: Patch)
    requires ValidCatalog(c) && Faithful(x) && WellFormed(c, x, current) && ParsedPatch(p)
    requires Patched(c, x, current, p).Applied?
    ensures WellFormed(c, x, Patched(c, x, current, p).value)
  {
    PatchedSyncWellFormed(c, current.sync, p.sync);
    PatchedStoreWellFormed(x, current.store, p.store);
  }

  // ---- The round trip ---------------------------------------------------------------

  lemma TrimOrdinary(t: string)
    requires Units.Trimmed(t)
    ensures Units.Trim(t) == t
  {
    Units.TrimPadded([], t, []);
    assert [] + t + [] == t;
  }

  lemma RetentionReadsBack(x: Codec, r: Retention)
    requires Faithful(x) && WellFormedRetention(x, r)
    ensures ReadRetention(x, RenderRetention(x, r)) == Some(r)
  {
    var t := RenderRetention(x, r);
    assert Units.Lower(FOREVER) == FOREVER;
    TrimOrdinary(t);
  }

  lemma CleanupReadsBack(x: Codec, cleanup: Option<nat>)
    requires Faithful(x) && (cleanup.Some? ==> cleanup.value > 0)
    ensures var t := if cleanup.Some? then x.renderDuration(cleanup.value) else NEVER;
            ReadCleanup(x, t).Some? && HandleCleanup(ReadCleanup(x, t).value) == cleanup
  {
    assert Units.Lower(NEVER) == NEVER;
    TrimOrdinary(if cleanup.Some? then x.renderDuration(cleanup.value) else NEVER);
  }

  lemma BudgetReadsBack(x: Codec, budget: Option<nat>)
    requires budget.Some? ==> 0 < budget.value <= U64_MAX
    ensures var t := if budget.Some? then Units.FormatBytes(budget.value) else UNLIMITED;
            ReadBudget(x, t).Some? && HandleBudget(ReadBudget(x, t).value) == budget
  {
    assert Units.Lower(UNLIMITED) == UNLIMITED;
    if budget.Some? {
      Units.FormatRoundTrip(budget.value);
      RenderedIsNotUnlimited(budget.value);
    } else {
      TrimOrdinary(UNLIMITED);
    }
  }

  lemma RenderedIsNotUnlimited(n: nat)
    ensures !IgnoreCase(Units.Trim(Units.FormatBytes(n)), UNLIMITED)
  {
    var t := Units.FormatBytes(n);
    Units.FormatStartsWithDigit(n);
    assert Units.TrimStart(t) == t;
    TrimEndKeepsHead(t);
    assert Units.LowerChar(t[0]) == t[0];
  }

  lemma {:induction false} TrimEndKeepsHead(t: string)
    requires t != [] && !Units.IsWhite(t[0])
    ensures Units.TrimEnd(t) != [] && Units.TrimEnd(t)[0] == t[0]
  {
    if Units.IsWhite(t[|t| - 1]) {
      TrimEndKeepsHead(t[..|t| - 1]);
    }
  }

  /** A canonical name is accepted in a request exactly if it is in the catalog. */
  lemma KnownIsListed(c: Catalog, name: string)
    requires ValidCatalog(c) && name != ALL_FIELDS && Canonical(c, name) == name
    ensures Known(c, name) <==> name in c.names
  {
  }

  ghost predicate AllListed(c: Catalog, fields: seq<FieldConfig>) {
    forall i :: 0 <= i < |fields| ==> fields[i].name in c.names
  }

  lemma AllKnownIsAllListed(c: Catalog, s: Sync)
    requires ValidCatalog(c) && WellFormedSync(c, s)
    ensures AllKnown(c, Restate(s.fields)) <==> AllListed(c, s.fields)
  {
    forall i | 0 <= i < |s.fields|
      ensures Known(c, Restate(s.fields)[i].name) <==> s.fields[i].name in c.names
    {
      KnownIsListed(c, s.fields[i].name);
    }
  }

  /** Restating a schedule resolves to it, whatever is inherited. */
  lemma RestatedSchedule(c: Catalog, s: Sync, inherited: Interval)
    requires WellFormedSync(c, s)
    ensures Schedule(c, Canon(c, Restate(s.fields)), inherited) == s.fields
  {
    var raw := Restate(s.fields);
    assert Canon(c, raw) == raw;
    PlainSchedule(c, raw, inherited);
    assert LayPlain(raw, inherited) == s.fields;
  }

  /** A patch that names only an interval re-times every scheduled field and nothing else. */
  lemma RetimedSchedule(c: Catalog, s: Sync, seconds: nat)
    requires WellFormedSync(c, s)
    ensures var next := PatchedSync(c, s, Some(SyncPatch(Some(seconds), None)));
            && next.Applied? && |next.value.fields| == |s.fields|
            && forall i :: 0 <= i < |s.fields| ==>
                 next.value.fields[i] == FieldConfig(s.fields[i].name, HandleInterval(seconds))
  {
    var raw := Inheriting(s.fields);
    assert Canon(c, raw) == raw;
    PlainSchedule(c, raw, HandleInterval(seconds));
  }

  predicate SameFixed(x: Codec, current: ServerConfig, loaded: ServerConfig) {
    && loaded.http == current.http
    && x.display(loaded.inventory.configPath) == x.display(current.inventory.configPath)
    && (loaded.inventory.runtimePath.Some? ==>
          && current.inventory.runtimePath.Some?
          && x.display(loaded.inventory.runtimePath.value) == x.display(current.inventory.runtimePath.value))
  }

  lemma ReloadSync(c: Catalog, current: Sync, loaded: Sync)
    requires ValidCatalog(c) && WellFormedSync(c, loaded)
    ensures PatchedSync(c, current, Some(SyncPatch(Some(Secs(loaded.inherited)), Some(Restate(loaded.fields)))))
         == if AllListed(c, loaded.fields) then Applied(loaded) else Malformed
  {
    AllKnownIsAllListed(c, loaded);
    RestatedSchedule(c, loaded, loaded.inherited);
    assert HandleInterval(Secs(loaded.inherited)) == loaded.inherited;
  }

  lemma StoreReadsAs(x: Codec, current: Store, retain: string, cleanup: string, budget: string, next: Store)
    requires ReadRetention(x, retain) == Some(next.retain)
    requires ReadCleanup(x, cleanup).Some? && HandleCleanup(ReadCleanup(x, cleanup).value) == next.cleanup
    requires ReadBudget(x, budget).Some? && HandleBudget(ReadBudget(x, budget).value) == next.maxMemory
    ensures PatchedStore(x, current, Some(StorePatch(Some(retain), Some(cleanup), Some(budget))))
         == Applied(next.(cleanupOnRemove := current.cleanupOnRemove))
  {
  }

  lemma ReloadStore(x: Codec, current: Store, cfg: ServerConfig)
    requires Faithful(x) && WellFormedStore(x, cfg.store)
    ensures PatchedStore(x, current, AsPatch(Publish(x, cfg)).store)
         == Applied(cfg.store.(cleanupOnRemove := current.cleanupOnRemove))
  {
    RetentionReadsBack(x, cfg.store.retain);
    CleanupReadsBack(x, cfg.store.cleanup);
    BudgetReadsBack(x, cfg.store.maxMemory);
    var texts := Publish(x, cfg).store;
    StoreReadsAs(x, current, texts.retain, texts.cleanup, texts.maxMemory, cfg.store);
  }

  /**
   Folding one configuration's document onto another: refused exactly if it moves a fixed setting
   or schedules a name outside the catalog, and otherwise every other setting becomes the loaded
   one, while the removal policy and the inventory paths stay.
   */
  lemma ReloadExact(c: Catalog, x: Codec, current: ServerConfig, loaded: ServerConfig)
    requires ValidCatalog(c) && Faithful(x) && WellFormed(c, x, loaded)
    ensures Patched(c, x, current, AsPatch(Publish(x, loaded)))
         == if !SameFixed(x, current, loaded) then Fixed
            else if !AllListed(c, loaded.sync.fields) then Malformed
            else Applied(ServerConfig(current.inventory, loaded.relay, loaded.sync,
                                      loaded.store.(cleanupOnRemove := current.store.cleanupOnRemove), loaded.http))
  {
    var p := AsPatch(Publish(x, loaded));
    ReloadSync(c, current.sync, loaded.sync);
    ReloadStore(x, current.store, loaded);
    assert PatchedRelay(current.relay, p.relay) == loaded.relay;
    assert MovesFixed(x, current, p) <==> !SameFixed(x, current, loaded);
  }

  /** The document sent back: no change if every scheduled name is in the catalog, refused otherwise. */
  lemma RoundTrip(c: Catalog, x: Codec, cfg: ServerConfig)
    requires ValidCatalog(c) && Faithful(x) && WellFormed(c, x, cfg)
    ensures Patched(c, x, cfg, AsPatch(Publish(x, cfg)))
         == if AllListed(c, cfg.sync.fields) then Applied(cfg) else Malformed
  {
    ReloadExact(c, x, cfg, cfg);
  }

  // ---- A patch, setting by setting -------------------------------------------------------

  /** The one floor of the relay's settings: zero reads as one. */
  ghost predicate ReadsAsFloored(given: nat, next: nat) {
    if given == 0 then next == 1 else next == given
  }

  /** The off switch of the numeric settings: zero reads as none. */
  ghost predicate ReadsAsSwitch(given: nat, next: Option<nat>) {
    if given == 0 then next == None else next == Some(given)
  }

  ghost predicate RelayFolded(current: Relay, p: Option<RelayPatch>, next: Relay) {
    && (if p.Some? && p.value.pollMs.Some? then ReadsAsFloored(p.value.pollMs.value, next.pollMs)
        else next.pollMs == current.pollMs)
    && (if p.Some? && p.value.maxAttempts.Some? then ReadsAsFloored(p.value.maxAttempts.value, next.maxAttempts)
        else next.maxAttempts == current.maxAttempts)
  }

  ghost predicate StoreFolded(x: Codec, current: Store, p: Option<StorePatch>, next: Store) {
    && next.cleanupOnRemove == current.cleanupOnRemove
    && (if p.Some? && p.value.retain.Some? then ReadRetention(x, p.value.retain.value) == Some(next.retain)
        else next.retain == current.retain)
    && (if p.Some? && p.value.cleanup.Some? then
          exists nanos :: ReadCleanup(x, p.value.cleanup.value) == Some(nanos) && ReadsAsSwitch(nanos, next.cleanup)
        else next.cleanup == current.cleanup)
    && (if p.Some? && p.value.maxMemory.Some? then
          exists bytes :: ReadBudget(x, p.value.maxMemory.value) == Some(bytes) && ReadsAsSwitch(bytes, next.maxMemory)
        else next.maxMemory == current.maxMemory)
  }

  ghost predicate SyncFolded(c: Catalog, current: Sync, p: Option<SyncPatch>, next: Sync) {
    && (if p.Some? && p.value.seconds.Some? then ReadsAsSwitch(p.value.seconds.value, next.inherited)
        else next.inherited == current.inherited)
    && (if p.Some? && p.value.fields.Some? then
          && IsSchedule(c, Canon(c, p.value.fields.value), next.inherited, next.fields)
          && forall i :: 0 <= i < |p.value.fields.value| ==>
               p.value.fields.value[i].name == "*" || c.find(p.value.fields.value[i].name).Some?
        else
          && Names(next.fields) == Names(current.fields)
          && (if p.Some? && p.value.seconds.Some? then
                forall i :: 0 <= i < |next.fields| ==> next.fields[i].interval == next.inherited
              else next.fields == current.fields))
  }

  /** What a patch does to the settings: those it names move, each as its value alone says, and no other. */
  ghost predicate Folded(c: Catalog, x: Codec, current: ServerConfig, p: Patch, next: ServerConfig) {
    && next.http == current.http && next.inventory == current.inventory
    && RelayFolded(current.relay, p.relay, next.relay)
    && StoreFolded(x, current.store, p.store, next.store)
    && SyncFolded(c, current.sync, p.sync, next.sync)
  }

  lemma PatchFolds(c: Catalog, x: Codec, current: ServerConfig, p: Patch)
    requires WellFormedSync(c, current.sync) && Patched(c, x, current, p).Applied?
    ensures Folded(c, x, current, p, Patched(c, x, current, p).value)
  {
    SyncFolds(c, current.sync, p.sync);
    StoreFolds(x, current.store, p.store);
  }

  lemma StoreFolds(x: Codec, current: Store, p: Option<StorePatch>)
    requires PatchedStore(x, current, p).Applied?
    ensures StoreFolded(x, current, p, PatchedStore(x, current, p).value)
  {
    if p.Some? && p.value.cleanup.Some? {
      var nanos := ReadCleanup(x, p.value.cleanup.value).value;
      assert ReadsAsSwitch(nanos, PatchedStore(x, current, p).value.cleanup);
    }
    if p.Some? && p.value.maxMemory.Some? {
      var bytes := ReadBudget(x, p.value.maxMemory.value).value;
      assert ReadsAsSwitch(bytes, PatchedStore(x, current, p).value.maxMemory);
    }
  }

  lemma SyncFolds(c: Catalog, current: Sync, p: Option<SyncPatch>)
    requires WellFormedSync(c, current) && PatchedSync(c, current, p).Applied?
    ensures SyncFolded(c, current, p, PatchedSync(c, current, p).value)
  {
    var next := PatchedSync(c, current, p).value;
    if p.Some? && p.value.fields.Some? {
      ScheduleMeetsSpec(c, Canon(c, p.value.fields.value), next.inherited);
      assert forall i :: 0 <= i < |p.value.fields.value| ==> Known(c, p.value.fields.value[i].name);
    } else if p.Some? && p.value.seconds.Some? {
      RetimedSchedule(c, current, p.value.seconds.value);
    }
  }

  /** Whether the patch names a setting that is fixed, at another value than the one in force. */
  predicate NamesFixed(x: Codec, current: ServerConfig, p: Patch) {
    || (p.http.Some? && (p.http.value.host != current.http.host || p.http.value.port != current.http.port))
    || (p.inventory.Some? && NamesOtherPaths(x, current.inventory, p.inventory.value))
  }

  predicate NamesOtherPaths(x: Codec, current: Inventory, p: InventoryPatch) {
    || (p.configPath.Some? && p.configPath.value != x.display(current.configPath))
    || (p.runtimePath.Some? && current.runtimePath.None?)
    || (p.runtimePath.Some? && p.runtimePath.value != x.display(current.runtimePath.value))
  }

  predicate Unqueryable(c: Catalog, p: SyncPatch) {
    p.fields.Some? &&
    exists i :: 0 <= i < |p.fields.value| && p.fields.value[i].name != "*" && c.find(p.fields.value[i].name).None?
  }

  predicate Unreadable(x: Codec, p: StorePatch) {
    || (p.retain.Some? && ReadRetention(x, p.retain.value).None?)
    || (p.cleanup.Some? && ReadCleanup(x, p.cleanup.value).None?)
    || (p.maxMemory.Some? && ReadBudget(x, p.maxMemory.value).None?)
  }

  predicate CannotBeRead(c: Catalog, x: Codec, p: Patch) {
    (p.sync.Some? && Unqueryable(c, p.sync.value)) || (p.store.Some? && Unreadable(x, p.store.value))
  }

  /**
   A patch is refused for moving a fixed setting before anything else, and otherwise exactly if it
   schedules a field that cannot be queried or holds a text that cannot be read.
   */
  lemma PatchRefusals(c: Catalog, x: Codec, current: ServerConfig, p: Patch)
    ensures Patched(c, x, current, p).Fixed? <==> NamesFixed(x, current, p)
    ensures Patched(c, x, current, p).Malformed? <==> !NamesFixed(x, current, p) && CannotBeRead(c, x, p)
  {
    if p.sync.Some? && p.sync.value.fields.Some? {
      var fs := p.sync.value.fields.value;
      assert AllKnown(c, fs) <==> forall i :: 0 <= i < |fs| ==> fs[i].name == "*" || c.find(fs[i].name).Some?;
    }
  }

  // ---- The texts of the store's settings ---------------------------------------------------

  lemma WordTrimmed(before: string, word: string, after: string, w: string)
    requires Units.AllWhite(before) && Units.AllWhite(after) && Units.Lower(word) == w
    requires w in [FOREVER, NEVER, UNLIMITED]
    ensures Units.Trim(before + word + after) == word
  {
    assert Units.LowerChar(word[0]) == w[0] && Units.LowerChar(word[|word| - 1]) == w[|w| - 1];
    Units.TrimPadded(before, word, after);
  }

  /** The words, in any case and with any white space around them. */
  lemma WordsRead(x: Codec, before: string, word: string, after: string)
    requires Units.AllWhite(before) && Units.AllWhite(after)
    ensures Units.Lower(word) == "forever" ==> ReadRetention(x, before + word + after) == Some(Forever)
    ensures Units.Lower(word) == "never" ==> ReadCleanup(x, before + word + after) == Some(0)
    ensures Units.Lower(word) == "unlimited" ==> ReadBudget(x, before + word + after) == Some(0)
  {
    if Units.Lower(word) in [FOREVER, NEVER, UNLIMITED] {
      WordTrimmed(before, word, after, Units.Lower(word));
    }
  }

  /** A whole number, signed or not, is that many seconds; a window of none is refused. */
  lemma SecondsRead(x: Codec, before: string, sign: string, digits: string, after: string)
    requires Units.AllWhite(before) && Units.AllWhite(after) && sign in ["", "+"]
    requires digits != "" && Units.AllDigits(digits) && Units.Value(digits) <= U64_MAX
    ensures var text, nanos := before + (sign + digits) + after, Units.Value(digits) * 1_000_000_000;
            && ReadCleanup(x, text) == Some(nanos)
            && ReadRetention(x, text) == if nanos == 0 then None else Some(Age(nanos))
  {
    var t := sign + digits;
    SignedDigits(sign, digits);
    Units.TrimPadded(before, t, after);
    TrimOrdinary(t);
  }

  lemma NotAWord(t: string)
    requires t != "" && (Units.IsDigit(t[0]) || t[0] == '+')
    ensures !IgnoreCase(t, FOREVER) && !IgnoreCase(t, NEVER)
  {
    assert Units.Lower(t)[0] == Units.LowerChar(t[0]) == t[0];
  }

  /** A size is the exact product of its whole number and unit if that fits, or what the library makes of a fraction. */
  lemma SizesRead(x: Codec, before: string, number: string, gap: string, unit: string, after: string)
    requires Units.AllWhite(before) && Units.AllWhite(gap) && Units.AllWhite(after)
    requires number != "" && Units.NumberLike(number) && Units.Scale(Units.Lower(unit)).Some?
    ensures var text, scale := before + number + gap + unit + after, Units.Scale(Units.Lower(unit)).value;
            if '.' in number then ReadBudget(x, text) == x.parseFraction(number, scale)
            else
              && Units.AllDigits(number)
              && ReadBudget(x, text) == if Units.Value(number) <= U64_MAX && Units.Value(number) * scale <= U64_MAX
                                        then Some(Units.Value(number) * scale) else None
  {
    var text := before + number + gap + unit + after;
    Units.UnitsAreLetters(unit);
    Units.SizeTrimmed(before, number, gap, unit, after);
    assert Units.Lower(Units.Trim(text))[0] == Units.LowerChar(number[0]) == number[0];
    if '.' in number {
      Units.FractionHandedOn(before, number, gap, unit, after);
    } else {
      Units.WholeNumberExact(before, number, gap, unit, after);
    }
  }

  lemma SignedDigits(sign: string, digits: string)
    requires sign in ["", "+"] && digits != "" && Units.AllDigits(digits) && Units.Value(digits) <= U64_MAX
    ensures var t := sign + digits;
            && Units.Trimmed(t) && ParseInteger(t) == Some(Units.Value(digits))
            && !IgnoreCase(t, FOREVER) && !IgnoreCase(t, NEVER)
  {
    var t := sign + digits;
    assert if sign == "" then t == digits else t[0] == '+' && t[1..] == digits;
    assert t[|t| - 1] == digits[|digits| - 1] && Units.IsDigit(t[|t| - 1]);
    NotAWord(t);
  }

  // ---- What a file leaves out ----------------------------------------------------------------

  const EMPTY_DEFAULTS: RawDefaults := RawDefaults(None, None, None, None)

  /** A file that says nothing but where the fleet is described. */
  function Silent(inventory: Inventory, defaults: RawDefaults): RawConfig {
    RawConfig(defaults, inventory, None, None, None, None, None, None, None, None, None, None)
  }

  /** The built-in settings: the whole catalog every thirty seconds, a day kept in 256 MiB, swept every five minutes. */
  lemma BuiltIn(c: Catalog, inventory: Inventory)
    requires ValidCatalog(c)
    ensures var cfg := ResolveConfig(c, Silent(inventory, EMPTY_DEFAULTS));
            && cfg.inventory == inventory
            && cfg.relay == Relay(250, 3)
            && cfg.sync.inherited == Some(30) && Names(cfg.sync.fields) == c.names
            && (forall i :: 0 <= i < |cfg.sync.fields| ==> cfg.sync.fields[i].interval == Some(30))
            && cfg.store.retain == Age(24 * 60 * 60 * 1_000_000_000)
            && cfg.store.cleanup == Some(5 * 60 * 1_000_000_000)
            && cfg.store.maxMemory == Some(256 * Units.MIB) && !cfg.store.cleanupOnRemove
            && cfg.http == Http("127.0.0.1", 8080)
  {
    WildcardAlone(c, Some(30));
  }

  lemma WildcardAlone(c: Catalog, inherited: Interval)
    requires ValidCatalog(c)
    ensures var fields := Schedule(c, Canon(c, [RawField("*", None)]), inherited);
            && Names(fields) == c.names
            && forall i :: 0 <= i < |fields| ==> fields[i].interval == inherited
  {
    assert Canon(c, [RawField("*", None)]) == [RawField("*", None)];
    WildcardSchedule(c, RawField("*", None), inherited);
  }

  lemma WildcardSchedule(c: Catalog, star: RawField, inherited: Interval)
    requires ValidCatalog(c) && IsWildcard(star)
    ensures var fields := Schedule(c, [star], inherited);
            && Names(fields) == c.names
            && forall i :: 0 <= i < |fields| ==> fields[i].interval == Resolve(star.seconds, inherited)
  {
    WildcardMentions(c, star);
    DistinctFirstOnly(c.names);
    forall n
      ensures IntervalOf([star], inherited, n) == Resolve(star.seconds, inherited)
    {
      WildcardInterval(star, inherited, n);
    }
  }

  lemma WildcardMentions(c: Catalog, star: RawField)
    requires IsWildcard(star)
    ensures Mentions(c, [star]) == c.names
  {
    assert [star][..0] == [] && [] + c.names == c.names;
  }

  lemma WildcardInterval(star: RawField, inherited: Interval, n: string)
    requires IsWildcard(star)
    ensures IntervalOf([star], inherited, n) == Resolve(star.seconds, inherited)
  {
    assert Explicit([star][..0], inherited, n) == None;
    assert Explicit([star], inherited, n) == None;
  }

  /** A section's own value stands before the shared default, and that before the built-in one. */
  lemma SectionThenDefault(c: Catalog, raw: RawConfig)
    ensures var cfg := ResolveConfig(c, raw);
            && (raw.seconds.Some? ==> ReadsAsSwitch(raw.seconds.value, cfg.sync.inherited))
            && (raw.seconds.None? && raw.defaults.seconds.Some? ==>
                  ReadsAsSwitch(raw.defaults.seconds.value, cfg.sync.inherited))
            && (raw.host.Some? ==> cfg.http.host == raw.host.value)
            && (raw.host.None? && raw.defaults.host.Some? ==> cfg.http.host == raw.defaults.host.value)
            && (raw.port.Some? ==> cfg.http.port == raw.port.value)
            && (raw.port.None? && raw.defaults.port.Some? ==> cfg.http.port == raw.defaults.port.value)
            && (raw.fields.Some? ==>
                  IsSchedule(c, Canon(c, raw.fields.value), cfg.sync.inherited, cfg.sync.fields))
            && (raw.fields.None? && raw.defaults.fields.Some? ==>
                  IsSchedule(c, Canon(c, raw.defaults.fields.value), cfg.sync.inherited, cfg.sync.fields))
  {
    var listed := OrElse(Or(raw.fields, raw.defaults.fields), [RawField(ALL_FIELDS, None)]);
    ScheduleMeetsSpec(c, Canon(c, listed), ResolveConfig(c, raw).sync.inherited);
  }

  /** Every other setting a file gives is the one in force, zero read as the setting reads it. */
  lemma GivenStands(c: Catalog, raw: RawConfig)
    ensures var cfg := ResolveConfig(c, raw);
            && cfg.inventory == raw.inventory
            && (raw.pollMs.Some? ==> ReadsAsFloored(raw.pollMs.value, cfg.relay.pollMs))
            && (raw.maxAttempts.Some? ==> ReadsAsFloored(raw.maxAttempts.value, cfg.relay.maxAttempts))
            && (raw.retain.Some? ==> cfg.store.retain == raw.retain.value)
            && (raw.cleanup.Some? ==> ReadsAsSwitch(raw.cleanup.value, cfg.store.cleanup))
            && (raw.maxMemory.Some? ==> ReadsAsSwitch(raw.maxMemory.value, cfg.store.maxMemory))
            && (raw.cleanupOnRemove.Some? ==> cfg.store.cleanupOnRemove == raw.cleanupOnRemove.value)
  {
  }

  // ---- Every reachable configuration ---------------------------------------------------

  /** Settings after a list of requests; a refused one changes nothing. */
  function AfterPatches(c: Catalog, x: Codec, cfg: ServerConfig, ps: seq<Patch>): ServerConfig {
    if ps == [] then cfg
    else
      var prior := AfterPatches(c, x, cfg, ps[..|ps| - 1]);
      match Patched(c, x, prior, ps[|ps| - 1])
      case Applied(next) => next
      case Malformed => prior
      case Fixed => prior
  }

  lemma {:induction false} ReachableWellFormed(c: Catalog, x: Codec, raw: RawConfig, ps: seq<Patch>)
    requires ValidCatalog(c) && Faithful(x) && Parsed(x, raw) && forall p :: p in ps ==> ParsedPatch(p)
    ensures WellFormed(c, x, AfterPatches(c, x, ResolveConfig(c, raw), ps))
  {
    if ps == [] {
      ResolvedWellFormed(c, x, raw);
    } else {
      var init, p := ps[..|ps| - 1], ps[|ps| - 1];
      assert p in ps;
      ReachableWellFormed(c, x, raw, init);
      var prior := AfterPatches(c, x, ResolveConfig(c, raw), init);
      if Patched(c, x, prior, p).Applied? {
        PatchedWellFormed(c, x, prior, p);
      }
    }
  }

  /** The identity holds of every configuration a file and any patches can lead to. */
  lemma ReachableRoundTrip(c: Catalog, x: Codec, raw: RawConfig, ps: seq<Patch>)
    requires ValidCatalog(c) && Faithful(x) && Parsed(x, raw) && forall p :: p in ps ==> ParsedPatch(p)
    ensures var cfg := AfterPatches(c, x, ResolveConfig(c, raw), ps);
            Patched(c, x, cfg, AsPatch(Publish(x, cfg)))
            == if AllListed(c, cfg.sync.fields) then Applied(cfg) else Malformed
  {
    ReachableWellFormed(c, x, raw, ps);
    RoundTrip(c, x, AfterPatches(c, x, ResolveConfig(c, raw), ps));
  }

  /** A file scheduling one name outside the catalog: its own document is refused. */
  lemma UnknownNameRefused(c: Catalog, x: Codec, raw: RawConfig, name: string)
    requires ValidCatalog(c) && Faithful(x) && Parsed(x, raw)
    requires raw.fields == Some([RawField(name, None)]) && name != ALL_FIELDS && c.find(name) == None
    ensures var cfg := ResolveConfig(c, raw);
            && Names(cfg.sync.fields) == [name] && !AllListed(c, cfg.sync.fields)
            && Patched(c, x, cfg, AsPatch(Publish(x, cfg))) == Malformed
  {
    var cfg, entries := ResolveConfig(c, raw), [RawField(name, None)];
    assert Canon(c, entries) == entries;
    PlainSchedule(c, entries, cfg.sync.inherited);
    assert cfg.sync.fields[0].name == name;
    ResolvedWellFormed(c, x, raw);
    RoundTrip(c, x, cfg);
  }

  /** Reloading the same file again changes nothing. */
  lemma ReloadTwice(c: Catalog, x: Codec, current: ServerConfig, loaded: ServerConfig)
    requires ValidCatalog(c) && Faithful(x) && WellFormed(c, x, loaded)
    requires Patched(c, x, current, AsPatch(Publish(x, loaded))).Applied?
    ensures var next := Patched(c, x, current, AsPatch(Publish(x, loaded)));
            Patched(c, x, next.value, AsPatch(Publish(x, loaded))) == next
  {
    ReloadExact(c, x, current, loaded);
    var next := Patched(c, x, current, AsPatch(Publish(x, loaded))).value;
    ReloadExact(c, x, next, loaded);
  }
}
