/** The poll schedule: expanding `*` and folding per-field overrides into one ordered list. */
module Fields {
  import opened Base

  /** Whole seconds; `None` is never. */
  type Interval = Option<nat>

  /** One entry as written: no interval means inherit, zero means never. */
  datatype RawField = RawField(name: string, seconds: Option<nat>)

  datatype FieldConfig = FieldConfig(name: string, interval: Interval)

  /** What core can query: the canonical names in order, and the name a spelling stands for. */
  datatype Catalog = Catalog(names: seq<string>, find: string -> Option<string>)

  const ALL_FIELDS: string := "*"

  ghost predicate Distinct<T>(s: seq<T>) {
    forall i, j :: 0 <= i < j < |s| ==> s[i] != s[j]
  }

  ghost predicate ValidCatalog(c: Catalog) {
    && Distinct(c.names) && ALL_FIELDS !in c.names
    && (forall n :: n in c.names ==> c.find(n) == Some(n))
    && (forall n :: c.find(n).Some? ==> c.find(n).value in c.names)
  }

  function HandleInterval(seconds: nat): Interval {
    if seconds > 0 then Some(seconds) else None
  }

  function Resolve(seconds: Option<nat>, inherited: Interval): Interval {
    if seconds.Some? then HandleInterval(seconds.value) else inherited
  }

  predicate IsWildcard(f: RawField) {
    f.name == ALL_FIELDS
  }

  function Canonical(c: Catalog, name: string): string {
    if name == ALL_FIELDS then name
    else if c.find(name).Some? then c.find(name).value else name
  }

  function Canon(c: Catalog, raw: seq<RawField>): (r: seq<RawField>)
    ensures |r| == |raw|
    ensures forall i :: 0 <= i < |r| ==> r[i] == RawField(Canonical(c, raw[i].name), raw[i].seconds)
  {
    seq(|raw|, i requires 0 <= i < |raw| => RawField(Canonical(c, raw[i].name), raw[i].seconds))
  }

  // ---- The schedule a list of canonical entries asks for -----------------------

  /** Every name in the order it is mentioned; a wildcard mentions the whole catalog in place. */
  function Mentions(c: Catalog, raw: seq<RawField>): seq<string> {
    if raw == [] then []
    else
      var f := raw[|raw| - 1];
      Mentions(c, raw[..|raw| - 1]) + (if IsWildcard(f) then c.names else [f.name])
  }

  /** The interval of the last entry naming `name`. */
  function Explicit(raw: seq<RawField>, inherited: Interval, name: string): Option<Interval> {
    if raw == [] then None
    else
      var f := raw[|raw| - 1];
      if !IsWildcard(f) && f.name == name then Some(Resolve(f.seconds, inherited))
      else Explicit(raw[..|raw| - 1], inherited, name)
  }

  /** The interval the first wildcard fills with. */
  function Fill(raw: seq<RawField>, inherited: Interval): Interval {
    if raw == [] then inherited
    else if IsWildcard(raw[0]) then Resolve(raw[0].seconds, inherited)
    else Fill(raw[1..], inherited)
  }

  function IntervalOf(raw: seq<RawField>, inherited: Interval, name: string): Interval {
    match Explicit(raw, inherited, name)
    case Some(i) => i
    case None => Fill(raw, inherited)
  }

  /** The position of the first mention of `x`. */
  function IndexOf(s: seq<string>, x: string): (i: nat)
    ensures i <= |s|
    ensures x in s <==> i < |s|
    ensures i < |s| ==> s[i] == x
  {
    if s == [] || s[0] == x then 0 else 1 + IndexOf(s[1..], x)
  }

  /** Each mentioned name once, in the order of first mention. */
  ghost predicate InMentionOrder(mentions: seq<string>, names: seq<string>) {
    SameMembers(names, mentions) && Ascends(mentions, names)
  }

  ghost predicate SameMembers(a: seq<string>, b: seq<string>) {
    forall x :: x in a <==> x in b
  }

  ghost predicate Ascends(mentions: seq<string>, names: seq<string>) {
    forall i, j :: 0 <= i < j < |names| ==> IndexOf(mentions, names[i]) < IndexOf(mentions, names[j])
  }

  function Names(fields: seq<FieldConfig>): (r: seq<string>)
    ensures |r| == |fields| && forall i :: 0 <= i < |r| ==> r[i] == fields[i].name
  {
    seq(|fields|, i requires 0 <= i < |fields| => fields[i].name)
  }

  /** The whole specification of a resolved schedule. */
  ghost predicate IsSchedule(c: Catalog, raw: seq<RawField>, inherited: Interval, fields: seq<FieldConfig>) {
    && InMentionOrder(Mentions(c, raw), Names(fields))
    && forall i :: 0 <= i < |fields| ==> fields[i].interval == IntervalOf(raw, inherited, fields[i].name)
  }

  // ---- A constructive form -------------------------------------------------------

  function FirstOnly(s: seq<string>): seq<string> {
    if s == [] then []
    else
      var init, last := FirstOnly(s[..|s| - 1]), s[|s| - 1];
      if last in init then init else init + [last]
  }

  function Lay(raw: seq<RawField>, inherited: Interval, names: seq<string>): (r: seq<FieldConfig>)
    ensures |r| == |names|
    ensures forall i :: 0 <= i < |r| ==> r[i] == FieldConfig(names[i], IntervalOf(raw, inherited, names[i]))
  {
    seq(|names|, i requires 0 <= i < |names| => FieldConfig(names[i], IntervalOf(raw, inherited, names[i])))
  }

  function Schedule(c: Catalog, raw: seq<RawField>, inherited: Interval): seq<FieldConfig> {
    Lay(raw, inherited, FirstOnly(Mentions(c, raw)))
  }

  lemma {:induction false} IndexOfSnoc(s: seq<string>, last: string, x: string)
    ensures IndexOf(s + [last], x) == if x in s then IndexOf(s, x) else if x == last then |s| else |s| + 1
  {
    if s != [] && s[0] != x {
      assert (s + [last])[1..] == s[1..] + [last];
      IndexOfSnoc(s[1..], last, x);
    }
  }

  lemma {:induction false} FirstOnlyMembers(s: seq<string>, x: string)
    ensures x in FirstOnly(s) <==> x in s
  {
    if s != [] {
      var init, last := s[..|s| - 1], s[|s| - 1];
      assert s == init + [last];
      FirstOnlyMembers(init, x);
      FirstOnlyMembers(init, last);
    }
  }

  lemma {:induction false} FirstOnlyAscends(s: seq<string>, i: nat, j: nat)
    requires i < j < |FirstOnly(s)|
    ensures IndexOf(s, FirstOnly(s)[i]) < IndexOf(s, FirstOnly(s)[j])
  {
    var init, last := s[..|s| - 1], s[|s| - 1];
    var names, a, b := FirstOnly(init), FirstOnly(s)[i], FirstOnly(s)[j];
    assert s == init + [last] && a == names[i];
    FirstOnlyMembers(init, a);
    FirstOnlyMembers(init, last);
    IndexOfSnoc(init, last, a);
    IndexOfSnoc(init, last, b);
    if j < |names| {
      FirstOnlyMembers(init, b);
      FirstOnlyAscends(init, i, j);
    }
  }

  lemma FirstOnlyInOrder(s: seq<string>)
    ensures InMentionOrder(s, FirstOnly(s))
  {
    var names := FirstOnly(s);
    forall x
      ensures x in names <==> x in s
    {
      FirstOnlyMembers(s, x);
    }
    forall i, j | 0 <= i < j < |names|
      ensures IndexOf(s, names[i]) < IndexOf(s, names[j])
    {
      FirstOnlyAscends(s, i, j);
    }
  }

  lemma FirstIsLeast(s: seq<string>, names: seq<string>, x: string)
    requires Ascends(s, names) && x in names
    ensures IndexOf(s, names[0]) <= IndexOf(s, x)
    ensures x in names[1..] ==> IndexOf(s, names[0]) < IndexOf(s, x)
  {
    var j :| 0 <= j < |names| && names[j] == x;
    if x in names[1..] {
      var k :| 0 <= k < |names[1..]| && names[1..][k] == x;
      assert names[k + 1] == x;
    }
  }

  lemma AscendsTail(s: seq<string>, names: seq<string>, x: string)
    requires Ascends(s, names) && names != []
    ensures Ascends(s, names[1..])
    ensures x in names[1..] <==> x in names && x != names[0]
  {
    var rest := names[1..];
    forall i, j | 0 <= i < j < |rest|
      ensures IndexOf(s, rest[i]) < IndexOf(s, rest[j])
    {
      assert rest[i] == names[i + 1] && rest[j] == names[j + 1];
    }
    assert names == [names[0]] + rest;
    if x in rest {
      FirstIsLeast(s, names, x);
    }
  }

  lemma HasMember(s: seq<string>)
    ensures s != [] ==> exists x :: x in s
  {
    if s != [] {
      assert s[0] in s;
    }
  }

  /** Two ascending lists of the same names are one list. */
  lemma {:induction false} AscendingUnique(s: seq<string>, a: seq<string>, b: seq<string>)
    requires Ascends(s, a) && Ascends(s, b) && SameMembers(a, b) && forall x :: x in a ==> x in s
    ensures a == b
  {
    HasMember(a);
    HasMember(b);
    if a != [] {
      assert a[0] in a && a[0] in b && b[0] in b && b[0] in a;
      FirstIsLeast(s, a, b[0]);
      FirstIsLeast(s, b, a[0]);
      assert a[0] == s[IndexOf(s, a[0])] == b[0];
      forall x
        ensures x in a[1..] <==> x in b[1..]
      {
        AscendsTail(s, a, x);
        AscendsTail(s, b, x);
      }
      AscendsTail(s, a, a[0]);
      AscendsTail(s, b, b[0]);
      AscendingUnique(s, a[1..], b[1..]);
      assert a == [a[0]] + a[1..] && b == [b[0]] + b[1..];
    }
  }

  /** Only one list is in mention order. */
  lemma InOrderUnique(s: seq<string>, names: seq<string>)
    requires InMentionOrder(s, names)
    ensures names == FirstOnly(s)
  {
    FirstOnlyInOrder(s);
    AscendingUnique(s, names, FirstOnly(s));
  }

  lemma ScheduleMeetsSpec(c: Catalog, raw: seq<RawField>, inherited: Interval)
    ensures IsSchedule(c, raw, inherited, Schedule(c, raw, inherited))
  {
    FirstOnlyInOrder(Mentions(c, raw));
    assert Names(Schedule(c, raw, inherited)) == FirstOnly(Mentions(c, raw));
  }

  /** Nothing else meets the specification. */
  lemma ScheduleUnique(c: Catalog, raw: seq<RawField>, inherited: Interval, fields: seq<FieldConfig>)
    requires IsSchedule(c, raw, inherited, fields)
    ensures fields == Schedule(c, raw, inherited)
  {
    InOrderUnique(Mentions(c, raw), Names(fields));
  }

  lemma InOrderDistinct(s: seq<string>, names: seq<string>)
    requires InMentionOrder(s, names)
    ensures Distinct(names)
  {
  }

  // ---- The two passes ------------------------------------------------------------

  type Table = seq<(string, Interval)>

  function Position(t: Table, name: string): (i: nat)
    ensures i <= |t|
    ensures i < |t| ==> t[i].0 == name
  {
    if t == [] || t[0].0 == name then 0 else 1 + Position(t[1..], name)
  }

  function Lookup(t: Table, name: string): Option<Interval> {
    if Position(t, name) < |t| then Some(t[Position(t, name)].1) else None
  }

  lemma {:induction false} LookupOverwrite(t: Table, name: string, v: Interval, n: string)
    requires Position(t, name) < |t|
    ensures Lookup(t[Position(t, name) := (name, v)], n) == if n == name then Some(v) else Lookup(t, n)
  {
    var t' := t[Position(t, name) := (name, v)];
    if t[0].0 == name {
      assert t'[1..] == t[1..];
    } else {
      assert t'[1..] == t[1..][Position(t[1..], name) := (name, v)];
      LookupOverwrite(t[1..], name, v, n);
    }
  }

  lemma {:induction false} LookupAppend(t: Table, name: string, v: Interval, n: string)
    requires Position(t, name) == |t|
    ensures Lookup(t + [(name, v)], n) == if n == name then Some(v) else Lookup(t, n)
  {
    if t != [] {
      assert (t + [(name, v)])[1..] == t[1..] + [(name, v)];
      LookupAppend(t[1..], name, v, n);
    }
  }

  /** Pass 1: every named field, the last mention overwriting the one before. */
  method CollectExplicit(raw: seq<RawField>, inherited: Interval) returns (explicit: Table)
    ensures forall n :: Lookup(explicit, n) == Explicit(raw, inherited, n)
  {
    explicit := [];
    for i := 0 to |raw|
      invariant forall n :: Lookup(explicit, n) == Explicit(raw[..i], inherited, n)
    {
      var f := raw[i];
      ghost var before := explicit;
      assert raw[..i + 1][..i] == raw[..i];
      if !IsWildcard(f) {
        var resolved := Resolve(f.seconds, inherited);
        var at := Position(explicit, f.name);
        if at < |explicit| {
          explicit := explicit[at := (f.name, resolved)];
          forall n ensures Lookup(explicit, n) == if n == f.name then Some(resolved) else Lookup(before, n) {
            LookupOverwrite(before, f.name, resolved, n);
          }
        } else {
          explicit := explicit + [(f.name, resolved)];
          forall n ensures Lookup(explicit, n) == if n == f.name then Some(resolved) else Lookup(before, n) {
            LookupAppend(before, f.name, resolved, n);
          }
        }
      }
    }
    assert raw[..|raw|] == raw;
  }

  /** Append `name` unless it is listed already. */
  method PushField(fields: seq<FieldConfig>, name: string, interval: Interval) returns (r: seq<FieldConfig>)
    ensures r == if name in Names(fields) then fields else fields + [FieldConfig(name, interval)]
  {
    for i := 0 to |fields|
      invariant name !in Names(fields)[..i]
    {
      if fields[i].name == name {
        assert Names(fields)[i] in Names(fields);
        return fields;
      }
      assert Names(fields)[..i + 1] == Names(fields)[..i] + [fields[i].name];
    }
    assert Names(fields)[..|fields|] == Names(fields);
    r := fields + [FieldConfig(name, interval)];
  }

  /** One mention laid down: the list so far stays the layout of the mentions so far. */
  lemma LayMention(raw: seq<RawField>, inherited: Interval, mentions: seq<string>, name: string)
    ensures var fields := Lay(raw, inherited, FirstOnly(mentions));
            Lay(raw, inherited, FirstOnly(mentions + [name]))
            == if name in mentions then fields else fields + [FieldConfig(name, IntervalOf(raw, inherited, name))]
    ensures name in Names(Lay(raw, inherited, FirstOnly(mentions))) <==> name in mentions
  {
    var m' := mentions + [name];
    assert m'[..|m'| - 1] == mentions;
    FirstOnlyMembers(mentions, name);
    assert Names(Lay(raw, inherited, FirstOnly(mentions))) == FirstOnly(mentions);
  }

  lemma {:induction false} FillIsFirst(raw: seq<RawField>, inherited: Interval, i: nat)
    requires i < |raw| && IsWildcard(raw[i]) && forall j :: 0 <= j < i ==> !IsWildcard(raw[j])
    ensures Fill(raw, inherited) == Resolve(raw[i].seconds, inherited)
  {
    if i > 0 {
      FillIsFirst(raw[1..], inherited, i - 1);
    }
  }

  lemma {:induction false} WildcardMentionsAll(c: Catalog, raw: seq<RawField>, j: nat, n: string)
    requires j < |raw| && IsWildcard(raw[j]) && n in c.names
    ensures n in Mentions(c, raw)
  {
    if j < |raw| - 1 {
      WildcardMentionsAll(c, raw[..|raw| - 1], j, n);
    }
  }

  /** A catalog name no entry names and no earlier wildcard mentioned is filled by the first wildcard. */
  lemma FreshTakesFill(c: Catalog, raw: seq<RawField>, inherited: Interval, i: nat, n: string)
    requires i < |raw| && IsWildcard(raw[i]) && n in c.names && n !in Mentions(c, raw[..i])
    ensures Fill(raw, inherited) == Resolve(raw[i].seconds, inherited)
  {
    forall j | 0 <= j < i
      ensures !IsWildcard(raw[j])
    {
      if IsWildcard(raw[j]) {
        WildcardMentionsAll(c, raw[..i], j, n);
      }
    }
    FillIsFirst(raw, inherited, i);
  }

  lemma {:induction false} NamedIsExplicit(raw: seq<RawField>, inherited: Interval, i: nat)
    requires i < |raw| && !IsWildcard(raw[i])
    ensures Explicit(raw, inherited, raw[i].name).Some?
  {
    if i < |raw| - 1 {
      NamedIsExplicit(raw[..|raw| - 1], inherited, i);
    }
  }

  lemma FreshInterval(c: Catalog, raw: seq<RawField>, inherited: Interval, i: nat, n: string)
    requires i < |raw| && IsWildcard(raw[i]) && n in c.names && n !in Mentions(c, raw[..i])
    ensures var stated := Explicit(raw, inherited, n);
            IntervalOf(raw, inherited, n) == if stated.Some? then stated.value else Resolve(raw[i].seconds, inherited)
  {
    FreshTakesFill(c, raw, inherited, i, n);
  }

  /** What a wildcard's turn for one catalog name has to add. */
  lemma CatalogStep(c: Catalog, raw: seq<RawField>, inherited: Interval, i: nat, k: nat)
    requires i < |raw| && IsWildcard(raw[i]) && k < |c.names|
    ensures var seen, name := Mentions(c, raw[..i]) + c.names[..k], c.names[k];
            var fields, stated := Lay(raw, inherited, FirstOnly(seen)), Explicit(raw, inherited, c.names[k]);
            Lay(raw, inherited, FirstOnly(Mentions(c, raw[..i]) + c.names[..k + 1]))
            == if name in Names(fields) then fields
               else
                 fields
                 + [FieldConfig(name, if stated.Some? then stated.value else Resolve(raw[i].seconds, inherited))]
  {
    var prior, name := Mentions(c, raw[..i]), c.names[k];
    var seen := prior + c.names[..k];
    LayMention(raw, inherited, seen, name);
    assert seen + [name] == prior + c.names[..k + 1] by {
      assert c.names[..k + 1] == c.names[..k] + [name];
    }
    if name !in seen {
      assert name !in prior;
      FreshInterval(c, raw, inherited, i, name);
    }
  }

  lemma MentionsMore(c: Catalog, raw: seq<RawField>, i: nat)
    requires i < |raw|
    ensures Mentions(c, raw[..i + 1]) == Mentions(c, raw[..i]) + (if IsWildcard(raw[i]) then c.names else [raw[i].name])
  {
    assert raw[..i + 1][..i] == raw[..i];
  }

  /** What a named entry's turn has to add. */
  lemma NamedStep(c: Catalog, raw: seq<RawField>, inherited: Interval, i: nat)
    requires i < |raw| && !IsWildcard(raw[i])
    ensures var fields := Lay(raw, inherited, FirstOnly(Mentions(c, raw[..i])));
            var stated := Explicit(raw, inherited, raw[i].name);
            && stated.Some?
            && Lay(raw, inherited, FirstOnly(Mentions(c, raw[..i + 1])))
               == if raw[i].name in Names(fields) then fields else fields + [FieldConfig(raw[i].name, stated.value)]
  {
    NamedIsExplicit(raw, inherited, i);
    MentionsMore(c, raw, i);
    LayMention(raw, inherited, Mentions(c, raw[..i]), raw[i].name);
  }

  /** One wildcard, laid down name by name. */
  method PushCatalog(c: Catalog, raw: seq<RawField>, inherited: Interval, explicit: Table, i: nat,
                     fields: seq<FieldConfig>) returns (r: seq<FieldConfig>)
    requires i < |raw| && IsWildcard(raw[i])
    requires forall n :: Lookup(explicit, n) == Explicit(raw, inherited, n)
    requires fields == Lay(raw, inherited, FirstOnly(Mentions(c, raw[..i])))
    ensures r == Lay(raw, inherited, FirstOnly(Mentions(c, raw[..i]) + c.names))
  {
    r := fields;
    assert Mentions(c, raw[..i]) + c.names[..0] == Mentions(c, raw[..i]);
    var fill := Resolve(raw[i].seconds, inherited);
    for k := 0 to |c.names|
      invariant r == Lay(raw, inherited, FirstOnly(Mentions(c, raw[..i]) + c.names[..k]))
    {
      CatalogStep(c, raw, inherited, i, k);
      var stated := Lookup(explicit, c.names[k]);
      r := PushField(r, c.names[k], if stated.Some? then stated.value else fill);
    }
    assert c.names[..|c.names|] == c.names;
  }

  /** Pass 2: lay the entries out in order of first mention. */
  method LayOut(c: Catalog, raw: seq<RawField>, inherited: Interval, explicit: Table) returns (fields: seq<FieldConfig>)
    requires forall n :: Lookup(explicit, n) == Explicit(raw, inherited, n)
    ensures fields == Schedule(c, raw, inherited)
  {
    fields := [];
    for i := 0 to |raw|
      invariant fields == Lay(raw, inherited, FirstOnly(Mentions(c, raw[..i])))
    {
      if IsWildcard(raw[i]) {
        MentionsMore(c, raw, i);
        fields := PushCatalog(c, raw, inherited, explicit, i, fields);
      } else {
        NamedStep(c, raw, inherited, i);
        var stated := Lookup(explicit, raw[i].name);
        fields := PushField(fields, raw[i].name, if stated.Some? then stated.value else inherited);
      }
    }
    assert raw[..|raw|] == raw;
  }

  method ResolveFields(c: Catalog, raw: seq<RawField>, inherited: Interval) returns (fields: seq<FieldConfig>)
    ensures fields == Schedule(c, Canon(c, raw), inherited)
    ensures IsSchedule(c, Canon(c, raw), inherited, fields)
  {
    var entries := Canon(c, raw);
    var explicit := CollectExplicit(entries, inherited);
    fields := LayOut(c, entries, inherited, explicit);
    ScheduleMeetsSpec(c, entries, inherited);
  }

  // ---- Laws ------------------------------------------------------------------------

  ghost predicate NoWildcard(raw: seq<RawField>) {
    forall i :: 0 <= i < |raw| ==> !IsWildcard(raw[i])
  }

  lemma {:induction false} MentionsConcat(c: Catalog, a: seq<RawField>, b: seq<RawField>)
    ensures Mentions(c, a + b) == Mentions(c, a) + Mentions(c, b)
  {
    if b == [] {
      assert a + b == a;
    } else {
      assert (a + b)[..|a + b| - 1] == a + b[..|b| - 1];
      MentionsConcat(c, a, b[..|b| - 1]);
    }
  }

  lemma {:induction false} ExplicitConcat(a: seq<RawField>, b: seq<RawField>, inherited: Interval, n: string)
    ensures Explicit(a + b, inherited, n)
         == if Explicit(b, inherited, n).Some? then Explicit(b, inherited, n) else Explicit(a, inherited, n)
  {
    if b == [] {
      assert a + b == a;
    } else {
      assert (a + b)[..|a + b| - 1] == a + b[..|b| - 1];
      ExplicitConcat(a, b[..|b| - 1], inherited, n);
    }
  }

  lemma {:induction false} FillSkipsNamed(a: seq<RawField>, b: seq<RawField>, inherited: Interval)
    requires NoWildcard(a)
    ensures Fill(a + b, inherited) == Fill(b, inherited)
  {
    if a == [] {
      assert a + b == b;
    } else {
      assert (a + b)[1..] == a[1..] + b;
      FillSkipsNamed(a[1..], b, inherited);
    }
  }

  lemma MentionsShuffle(c: Catalog, x: seq<RawField>, y: seq<RawField>, z: seq<RawField>, star: RawField, name: string)
    ensures name in Mentions(c, x + [star] + y + z) <==> name in Mentions(c, x + y + [star] + z)
  {
    MentionsConcat(c, x + [star] + y, z);
    MentionsConcat(c, x + [star], y);
    MentionsConcat(c, x, [star]);
    MentionsConcat(c, x + y + [star], z);
    MentionsConcat(c, x + y, [star]);
    MentionsConcat(c, x, y);
  }

  lemma ExplicitShuffle(x: seq<RawField>, y: seq<RawField>, z: seq<RawField>, star: RawField,
                        inherited: Interval, name: string)
    requires IsWildcard(star)
    ensures Explicit(x + [star] + y + z, inherited, name) == Explicit(x + y + [star] + z, inherited, name)
  {
    ExplicitConcat(x + [star] + y, z, inherited, name);
    ExplicitConcat(x + [star], y, inherited, name);
    ExplicitConcat(x, [star], inherited, name);
    ExplicitConcat(x + y + [star], z, inherited, name);
    ExplicitConcat(x + y, [star], inherited, name);
    ExplicitConcat(x, y, inherited, name);
    assert [star][..0] == [];
  }

  lemma FillShuffle(x: seq<RawField>, y: seq<RawField>, z: seq<RawField>, star: RawField, inherited: Interval)
    requires NoWildcard(x) && NoWildcard(y) && IsWildcard(star)
    ensures Fill(x + [star] + y + z, inherited) == Fill(x + y + [star] + z, inherited)
  {
    assert x + [star] + y + z == x + ([star] + (y + z));
    assert x + y + [star] + z == (x + y) + ([star] + z);
    FillSkipsNamed(x, [star] + (y + z), inherited);
    FillSkipsNamed(x + y, [star] + z, inherited);
  }

  lemma WildcardShuffle(c: Catalog, x: seq<RawField>, y: seq<RawField>, z: seq<RawField>,
                        star: RawField, inherited: Interval, name: string)
    requires NoWildcard(x) && NoWildcard(y) && IsWildcard(star)
    ensures var early, late := x + [star] + y + z, x + y + [star] + z;
            && (name in Mentions(c, early) <==> name in Mentions(c, late))
            && IntervalOf(early, inherited, name) == IntervalOf(late, inherited, name)
  {
    MentionsShuffle(c, x, y, z, star, name);
    ExplicitShuffle(x, y, z, star, inherited, name);
    FillShuffle(x, y, z, star, inherited);
  }

  lemma ScheduleHas(c: Catalog, raw: seq<RawField>, inherited: Interval, f: FieldConfig)
    ensures f in Schedule(c, raw, inherited)
            <==> f.name in Mentions(c, raw) && f.interval == IntervalOf(raw, inherited, f.name)
  {
    var names := FirstOnly(Mentions(c, raw));
    FirstOnlyMembers(Mentions(c, raw), f.name);
    if f.name in names && f.interval == IntervalOf(raw, inherited, f.name) {
      var i :| 0 <= i < |names| && names[i] == f.name;
      assert Schedule(c, raw, inherited)[i] == f;
    }
  }

  lemma CanonParts(c: Catalog, a: seq<RawField>, star: RawField, b: seq<RawField>, d: seq<RawField>)
    ensures Canon(c, a + [star] + b + d) == Canon(c, a) + [RawField(Canonical(c, star.name), star.seconds)]
            + Canon(c, b) + Canon(c, d)
    ensures Canon(c, a + b + [star] + d) == Canon(c, a) + Canon(c, b)
            + [RawField(Canonical(c, star.name), star.seconds)] + Canon(c, d)
  {
  }

  /** Where a wildcard stands among named entries does not matter to what is polled, or how often. */
  lemma WildcardPositionIrrelevant(c: Catalog, x: seq<RawField>, y: seq<RawField>, z: seq<RawField>,
                                   star: RawField, inherited: Interval, f: FieldConfig)
    requires ValidCatalog(c) && NoWildcard(x) && NoWildcard(y) && IsWildcard(star)
    ensures f in Schedule(c, Canon(c, x + [star] + y + z), inherited)
            <==> f in Schedule(c, Canon(c, x + y + [star] + z), inherited)
  {
    CanonParts(c, x, star, y, z);
    WildcardShuffle(c, Canon(c, x), Canon(c, y), Canon(c, z), star, inherited, f.name);
    ScheduleHas(c, Canon(c, x + [star] + y + z), inherited, f);
    ScheduleHas(c, Canon(c, x + y + [star] + z), inherited, f);
  }

  ghost predicate PlainNames(raw: seq<RawField>) {
    NoWildcard(raw) && forall i, j :: 0 <= i < j < |raw| ==> raw[i].name != raw[j].name
  }

  function LayPlain(raw: seq<RawField>, inherited: Interval): (r: seq<FieldConfig>)
    ensures |r| == |raw|
    ensures forall i :: 0 <= i < |r| ==> r[i] == FieldConfig(raw[i].name, Resolve(raw[i].seconds, inherited))
  {
    seq(|raw|, i requires 0 <= i < |raw| => FieldConfig(raw[i].name, Resolve(raw[i].seconds, inherited)))
  }

  lemma {:induction false} PlainMentions(c: Catalog, raw: seq<RawField>)
    requires NoWildcard(raw)
    ensures |Mentions(c, raw)| == |raw| && forall i :: 0 <= i < |raw| ==> Mentions(c, raw)[i] == raw[i].name
  {
    if raw != [] {
      PlainMentions(c, raw[..|raw| - 1]);
    }
  }

  lemma {:induction false} DistinctFirstOnly(s: seq<string>)
    requires Distinct(s)
    ensures FirstOnly(s) == s
  {
    if s != [] {
      var init := s[..|s| - 1];
      DistinctFirstOnly(init);
      assert s == init + [s[|s| - 1]];
    }
  }

  lemma {:induction false} PlainExplicit(raw: seq<RawField>, inherited: Interval, i: nat)
    requires PlainNames(raw) && i < |raw|
    ensures Explicit(raw, inherited, raw[i].name) == Some(Resolve(raw[i].seconds, inherited))
  {
    if i < |raw| - 1 {
      PlainExplicit(raw[..|raw| - 1], inherited, i);
    }
  }

  /** A list of distinct names resolves to itself, entry by entry. */
  lemma PlainSchedule(c: Catalog, raw: seq<RawField>, inherited: Interval)
    requires PlainNames(raw)
    ensures Schedule(c, raw, inherited) == LayPlain(raw, inherited)
  {
    PlainMentions(c, raw);
    DistinctFirstOnly(Mentions(c, raw));
    forall i | 0 <= i < |raw|
      ensures Schedule(c, raw, inherited)[i] == LayPlain(raw, inherited)[i]
    {
      PlainExplicit(raw, inherited, i);
    }
  }
}
