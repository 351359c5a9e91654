/**
 The config document's keys, read off its schema: a walk over components that may refer to each
 other, to themselves, or to nothing.
 */
module Schema {
  import opened Base

  datatype Type = TObject | TString | TInteger | TNumber | TBoolean | TArray | TNull
  datatype SchemaType = One(ty: Type) | Many(types: seq<Type>) | AnyValue

  datatype Property = Property(name: string, node: RefOr)
  datatype RefOr = Ref(location: string) | T(schema: Schema)
  datatype Schema =
    | Object(properties: seq<Property>, ty: SchemaType, about: Option<string>)
    | Array(about: Option<string>)
    | Composite(items: seq<RefOr>)   // one-of, all-of and any-of are walked alike
    | Other

  datatype EnvKey = EnvKey(path: string, types: seq<Type>, list: bool, about: Option<string>)

  function NotNull(): Type -> bool {
    (t: Type) => t != TNull
  }

  function TypesOf(t: SchemaType): seq<Type> {
    match t
    case One(ty) => Filter([ty], NotNull())
    case Many(types) => Filter(types, NotNull())
    case AnyValue => []
  }

  function Join(path: seq<string>): string {
    if path == [] then "" else if |path| == 1 then path[0] else path[0] + "." + Join(path[1..])
  }

  /** The text after the last slash. */
  function LastSegment(location: string): string {
    if location == [] || location[|location| - 1] == '/' then ""
    else LastSegment(location[..|location| - 1]) + [location[|location| - 1]]
  }

  // ---- Merging the arms of a composite --------------------------------------------

  function Position(out: seq<EnvKey>, path: string): (i: nat)
    ensures i <= |out|
    ensures i < |out| ==> out[i].path == path
    ensures forall j :: 0 <= j < i ==> out[j].path != path
  {
    if out == [] || out[0].path == path then 0 else 1 + Position(out[1..], path)
  }

  function Union(types: seq<Type>, more: seq<Type>): seq<Type> {
    if more == [] then types
    else
      var u := Union(types, more[..|more| - 1]);
      if more[|more| - 1] in u then u else u + [more[|more| - 1]]
  }

  function MergeOne(out: seq<EnvKey>, arm: EnvKey): seq<EnvKey> {
    var i := Position(out, arm.path);
    if i < |out| then
      out[i := EnvKey(arm.path, Union(out[i].types, arm.types), out[i].list || arm.list,
                      if out[i].about.Some? then out[i].about else arm.about)]
    else if arm.types != [] || arm.list then out + [arm]
    else out
  }

  function Merge(arms: seq<EnvKey>, out: seq<EnvKey>): seq<EnvKey> {
    if arms == [] then out else MergeOne(Merge(arms[..|arms| - 1], out), arms[|arms| - 1])
  }

  // ---- The walk as a function --------------------------------------------------------

  type Defs = map<string, RefOr>

  /** Follow references, never into a component already on the path; a dangling one adds nothing. */
  function NodeOut(defs: Defs, active: set<string>, node: RefOr, path: seq<string>, out: seq<EnvKey>): seq<EnvKey>
    decreases |defs.Keys - active|, node
  {
    match node
    case Ref(location) =>
      var name := LastSegment(location);
      if name in active || name !in defs then out
      else
        Fewer(defs, active, name);
        NodeOut(defs, active + {name}, defs[name], path, out)
    case T(schema) => SchemaOut(defs, active, schema, path, out)
  }

  function SchemaOut(defs: Defs, active: set<string>, schema: Schema, path: seq<string>, out: seq<EnvKey>): seq<EnvKey>
    decreases |defs.Keys - active|, schema
  {
    match schema
    case Object(properties, ty, about) =>
      if properties != [] then PropertiesOut(defs, active, properties, path, out)
      else out + [EnvKey(Join(path), TypesOf(ty), false, about)]
    case Array(about) => out + [EnvKey(Join(path), [TArray], true, about)]
    case Composite(items) => Merge(ItemsOut(defs, active, items, path, []), out)
    case Other => out
  }

  function PropertiesOut(defs: Defs, active: set<string>, ps: seq<Property>, path: seq<string>,
                         out: seq<EnvKey>): seq<EnvKey>
    decreases |defs.Keys - active|, ps
  {
    if ps == [] then out
    else
      var last := ps[|ps| - 1];
      NodeOut(defs, active, last.node, path + [last.name], PropertiesOut(defs, active, ps[..|ps| - 1], path, out))
  }

  function ItemsOut(defs: Defs, active: set<string>, items: seq<RefOr>, path: seq<string>,
                    out: seq<EnvKey>): seq<EnvKey>
    decreases |defs.Keys - active|, items
  {
    if items == [] then out
    else NodeOut(defs, active, items[|items| - 1], path, ItemsOut(defs, active, items[..|items| - 1], path, out))
  }

  lemma Fewer(defs: Defs, active: set<string>, name: string)
    requires name in defs && name !in active
    ensures |defs.Keys - (active + {name})| < |defs.Keys - active|
  {
    assert defs.Keys - active == (defs.Keys - (active + {name})) + {name};
  }

  // ---- The walk as it runs -------------------------------------------------------------

  function Elements(s: seq<string>): set<string> {
    set x | x in s
  }

  method MergeInto(arms: seq<EnvKey>, into: seq<EnvKey>) returns (out: seq<EnvKey>)
    ensures out == Merge(arms, into)
  {
    out := into;
    for i := 0 to |arms|
      invariant out == Merge(arms[..i], into)
    {
      var arm := arms[i];
      var at := Position(out, arm.path);
      if at < |out| {
        var existing := out[at];
        var types := AddTypes(existing.types, arm.types);
        out := out[at := EnvKey(arm.path, types, existing.list || arm.list,
                                if existing.about.Some? then existing.about else arm.about)];
      } else if arm.types != [] || arm.list {
        out := out + [arm];
      }
      assert arms[..i + 1][..i] == arms[..i];
    }
    assert arms[..|arms|] == arms;
  }

  method AddTypes(types: seq<Type>, more: seq<Type>) returns (r: seq<Type>)
    ensures r == Union(types, more)
  {
    r := types;
    for i := 0 to |more|
      invariant r == Union(types, more[..i])
    {
      if more[i] !in r {
        r := r + [more[i]];
      }
      assert more[..i + 1][..i] == more[..i];
    }
    assert more[..|more|] == more;
  }

  /** The descent, with the components and the keys it is currently under. Both are restored on return. */
  class Walk {
    const defs: Defs
    var active: seq<string>
    var path: seq<string>

    constructor (defs: Defs)
      ensures this.defs == defs && active == [] && path == []
    {
      this.defs, active, path := defs, [], [];
    }

    method Node(node: RefOr, into: seq<EnvKey>) returns (out: seq<EnvKey>)
      modifies this
      ensures active == old(active) && path == old(path)
      ensures out == NodeOut(defs, Elements(active), node, path, into)
      decreases |defs.Keys - Elements(active)|, node
    {
      match node {
        case Ref(location) =>
          var name := LastSegment(location);
          if name in active || name !in defs {
            return into;
          }
          ghost var before := Elements(active);
          Fewer(defs, before, name);
          active := active + [name];
          assert Elements(active) == before + {name};
          out := Node(defs[name], into);
          active := active[..|active| - 1];
        case T(schema) =>
          out := SchemaNode(schema, into);
      }
    }

    method SchemaNode(schema: Schema, into: seq<EnvKey>) returns (out: seq<EnvKey>)
      modifies this
      ensures active == old(active) && path == old(path)
      ensures out == SchemaOut(defs, Elements(active), schema, path, into)
      decreases |defs.Keys - Elements(active)|, schema
    {
      match schema {
        case Object(properties, ty, about) =>
          if properties != [] {
            out := Properties(properties, into);
          } else {
            out := into + [EnvKey(Join(path), TypesOf(ty), false, about)];
          }
        case Array(about) =>
          out := into + [EnvKey(Join(path), [TArray], true, about)];
        case Composite(items) =>
          var arms := Items(items);
          out := MergeInto(arms, into);
        case Other =>
          out := into;
      }
    }

    method Properties(ps: seq<Property>, into: seq<EnvKey>) returns (out: seq<EnvKey>)
      modifies this
      ensures active == old(active) && path == old(path)
      ensures out == PropertiesOut(defs, Elements(active), ps, path, into)
      decreases |defs.Keys - Elements(active)|, ps
    {
      out := into;
      for i := 0 to |ps|
        invariant active == old(active) && path == old(path)
        invariant out == PropertiesOut(defs, Elements(active), ps[..i], path, into)
      {
        assert ps[..i + 1][..i] == ps[..i];
        path := path + [ps[i].name];
        out := Node(ps[i].node, out);
        path := path[..|path| - 1];
      }
      assert ps[..|ps|] == ps;
    }

    method Items(items: seq<RefOr>) returns (out: seq<EnvKey>)
      modifies this
      ensures active == old(active) && path == old(path)
      ensures out == ItemsOut(defs, Elements(active), items, path, [])
      decreases |defs.Keys - Elements(active)|, items
    {
      out := [];
      for i := 0 to |items|
        invariant active == old(active) && path == old(path)
        invariant out == ItemsOut(defs, Elements(active), items[..i], path, [])
      {
        assert items[..i + 1][..i] == items[..i];
        out := Node(items[i], out);
      }
      assert items[..|items|] == items;
    }
  }

  // ---- What the walk finds ----------------------------------------------------------------

  /** One thing the document says about a key; `Typed` is that it says anything but its name. */
  datatype Fact =
    | Accepts(path: string, ty: Type)
    | IsList(path: string)
    | Typed(path: string)
    | Listed(path: string)

  predicate KeySays(e: EnvKey, f: Fact) {
    e.path == f.path &&
    match f
    case Accepts(_, ty) => ty in e.types
    case IsList(_) => e.list
    case Typed(_) => e.types != [] || e.list
    case Listed(_) => true
  }

  /** The types a schema states, `null` apart. */
  predicate Allows(t: SchemaType, ty: Type) {
    ty != TNull &&
    match t
    case One(only) => ty == only
    case Many(types) => ty in types
    case AnyValue => false
  }

  /** What a schema without properties says of its own key. */
  predicate LeafSays(p: string, ty: SchemaType, f: Fact) {
    f.path == p &&
    match f
    case Accepts(_, t) => Allows(ty, t)
    case IsList(_) => false
    case Typed(_) => exists t :: Allows(ty, t)
    case Listed(_) => true
  }

  predicate ListSays(p: string, f: Fact) {
    f.path == p && (f.Accepts? ==> f.ty == TArray)
  }

  lemma LeafTypes(ty: SchemaType)
    ensures forall t :: t in TypesOf(ty) <==> Allows(ty, t)
    ensures TypesOf(ty) != [] <==> exists t :: Allows(ty, t)
  {
    forall t
      ensures t in TypesOf(ty) <==> Allows(ty, t)
    {
      match ty
      case One(only) => FilterMember([only], NotNull(), t);
      case Many(types) => FilterMember(types, NotNull(), t);
      case AnyValue =>
    }
    FirstIn(TypesOf(ty));
  }

  predicate Says(out: seq<EnvKey>, f: Fact) {
    exists i :: 0 <= i < |out| && KeySays(out[i], f)
  }

  /** What an arm must say for the merged listing to say `f`: an arm that only names a key adds none. */
  function InArm(f: Fact): Fact {
    if f.Listed? then Typed(f.path) else f
  }

  /** What the schema says, with no regard to order or merging. */
  predicate NodeSays(defs: Defs, active: set<string>, node: RefOr, path: seq<string>, f: Fact)
    decreases |defs.Keys - active|, node
  {
    match node
    case Ref(location) =>
      var name := LastSegment(location);
      name !in active && name in defs &&
      (Fewer(defs, active, name); NodeSays(defs, active + {name}, defs[name], path, f))
    case T(Object(ps, ty, _)) =>
      if ps == [] then LeafSays(Join(path), ty, f)
      else exists i :: 0 <= i < |ps| && NodeSays(defs, active, ps[i].node, path + [ps[i].name], f)
    case T(Array(_)) => ListSays(Join(path), f)
    case T(Composite(items)) => exists i :: 0 <= i < |items| && NodeSays(defs, active, items[i], path, InArm(f))
    case T(Other) => false
  }

  lemma {:induction false} UnionHas(types: seq<Type>, more: seq<Type>, t: Type)
    ensures t in Union(types, more) <==> t in types || t in more
  {
    if more != [] {
      var init := more[..|more| - 1];
      assert more == init + [more[|more| - 1]];
      UnionHas(types, init, t);
    }
  }

  lemma SaysAppend(out: seq<EnvKey>, e: EnvKey, f: Fact)
    ensures Says(out + [e], f) <==> Says(out, f) || KeySays(e, f)
  {
    var out' := out + [e];
    if Says(out, f) {
      var i :| 0 <= i < |out| && KeySays(out[i], f);
      assert out'[i] == out[i];
    }
    if KeySays(e, f) {
      assert out'[|out|] == e;
    }
  }

  lemma MergeOneSays(out: seq<EnvKey>, arm: EnvKey, f: Fact)
    ensures Says(MergeOne(out, arm), f) <==> Says(out, f) || KeySays(arm, InArm(f))
  {
    var at := Position(out, arm.path);
    var out' := MergeOne(out, arm);
    if at < |out| {
      forall ty
        ensures ty in out'[at].types <==> ty in out[at].types || ty in arm.types
      {
        UnionHas(out[at].types, arm.types, ty);
      }
      HasTypes(out'[at].types, out[at].types, arm.types);
      assert KeySays(out'[at], f) <==> KeySays(out[at], f) || KeySays(arm, InArm(f));
      assert forall i :: 0 <= i < |out| && i != at ==> out'[i] == out[i];
    } else {
      SaysAppend(out, arm, f);
    }
  }

  lemma HasTypes(all: seq<Type>, a: seq<Type>, b: seq<Type>)
    requires forall ty :: ty in all <==> ty in a || ty in b
    ensures all != [] <==> a != [] || b != []
  {
    FirstIn(all);
    FirstIn(a);
    FirstIn(b);
  }

  lemma FirstIn(types: seq<Type>)
    ensures types != [] ==> exists ty :: ty in types
  {
    if types != [] {
      assert types[0] in types;
    }
  }

  /** Merging loses nothing either side says and adds nothing, but the keys an arm only names. */
  lemma {:induction false} MergeSays(arms: seq<EnvKey>, out: seq<EnvKey>, f: Fact)
    ensures Says(Merge(arms, out), f) <==> Says(out, f) || Says(arms, InArm(f))
  {
    if arms != [] {
      var init, last := arms[..|arms| - 1], arms[|arms| - 1];
      MergeSays(init, out, f);
      MergeOneSays(Merge(init, out), last, f);
      SaysAppend(init, last, InArm(f));
      assert arms == init + [last];
    }
  }

  // ---- References ------------------------------------------------------------------------

  lemma {:induction false} SegmentAfterSlash(prefix: string, name: string)
    requires '/' !in name
    ensures LastSegment(prefix + "/" + name) == name && LastSegment(name) == name
  {
    var whole := prefix + "/" + name;
    if name == "" {
      assert whole[|whole| - 1] == '/';
    } else {
      var init, last := name[..|name| - 1], name[|name| - 1];
      assert whole[..|whole| - 1] == prefix + "/" + init && whole[|whole| - 1] == last;
      assert last in name && name == init + [last];
      SegmentAfterSlash(prefix, init);
    }
  }

  /** A reference follows what stands after its last slash, or the whole of it if it has none. */
  lemma RefFollows(defs: Defs, active: set<string>, prefix: string, name: string, path: seq<string>, out: seq<EnvKey>)
    requires '/' !in name
    ensures var inside := name in defs && name !in active;
            && NodeOut(defs, active, Ref(prefix + "/" + name), path, out)
               == (if inside then NodeOut(defs, active + {name}, defs[name], path, out) else out)
            && NodeOut(defs, active, Ref(name), path, out)
               == (if inside then NodeOut(defs, active + {name}, defs[name], path, out) else out)
  {
    SegmentAfterSlash(prefix, name);
  }

  // ---- Descriptions ------------------------------------------------------------------------

  /** The description the first entry of `p` carries. */
  function About(out: seq<EnvKey>, p: string): Option<string> {
    if Position(out, p) < |out| then out[Position(out, p)].about else None
  }

  /** The first description any of `arms` gives of `p`. */
  function FirstAbout(arms: seq<EnvKey>, p: string): Option<string> {
    if arms == [] then None
    else if arms[0].path == p && arms[0].about.Some? then arms[0].about
    else FirstAbout(arms[1..], p)
  }

  lemma {:induction false} MergeSplits(a: seq<EnvKey>, b: seq<EnvKey>, out: seq<EnvKey>)
    ensures Merge(a + b, out) == Merge(b, Merge(a, out))
  {
    if b == [] {
      assert a + b == a;
    } else {
      assert (a + b)[..|a + b| - 1] == a + b[..|b| - 1];
      MergeSplits(a, b[..|b| - 1], out);
    }
  }

  lemma PositionIs(out: seq<EnvKey>, p: string, i: nat)
    requires i < |out| && out[i].path == p && forall j :: 0 <= j < i ==> out[j].path != p
    ensures Position(out, p) == i
  {
  }

  lemma MergeOneAbout(out: seq<EnvKey>, arm: EnvKey, p: string)
    ensures Says(out, Listed(p)) ==>
              About(MergeOne(out, arm), p)
              == if About(out, p).Some? || arm.path != p then About(out, p) else arm.about
    ensures !Says(out, Listed(p)) && KeySays(arm, Typed(p)) ==> About(MergeOne(out, arm), p) == arm.about
  {
    var at, i := Position(out, arm.path), Position(out, p);
    var out' := MergeOne(out, arm);
    if i < |out| {
      assert forall j :: 0 <= j < |out| ==> out'[j].path == out[j].path;
      PositionIs(out', p, i);
    } else if KeySays(arm, Typed(p)) {
      assert at == |out| && out' == out + [arm];
      assert forall j :: 0 <= j < |out| ==> out'[j] == out[j];
      PositionIs(out', p, |out|);
    }
    assert Says(out, Listed(p)) ==> i < |out|;
    assert i < |out| ==> KeySays(out[i], Listed(p));
  }

  /** A listed key keeps the description it has, or takes the first an arm gives. */
  lemma {:induction false} MergeAbout(arms: seq<EnvKey>, out: seq<EnvKey>, p: string)
    requires Says(out, Listed(p))
    ensures About(Merge(arms, out), p) == if About(out, p).Some? then About(out, p) else FirstAbout(arms, p)
    decreases |arms|
  {
    if arms != [] {
      var next := MergeOne(out, arms[0]);
      assert arms == [arms[0]] + arms[1..] && [arms[0]][..0] == [];
      MergeSplits([arms[0]], arms[1..], out);
      MergeOneAbout(out, arms[0], p);
      MergeOneSays(out, arms[0], Listed(p));
      MergeAbout(arms[1..], next, p);
    }
  }

  /** A key first listed by an arm has that arm's description, or the first a later arm gives. */
  lemma MergeAboutNew(early: seq<EnvKey>, arm: EnvKey, late: seq<EnvKey>, out: seq<EnvKey>, p: string)
    requires !Says(out, Listed(p)) && !Says(early, Typed(p)) && KeySays(arm, Typed(p))
    ensures About(Merge(early + [arm] + late, out), p) == if arm.about.Some? then arm.about else FirstAbout(late, p)
  {
    var before := Merge(early, out);
    MergeSays(early, out, Listed(p));
    MergeSplits(early + [arm], late, out);
    assert (early + [arm])[..|early + [arm]| - 1] == early;
    MergeOneAbout(before, arm, p);
    MergeOneSays(before, arm, Listed(p));
    MergeAbout(late, MergeOne(before, arm), p);
  }

  // ---- The whole listing -------------------------------------------------------------------

  /** The walk adds exactly what the schema says, on every component graph. */
  lemma {:induction false} NodeOutSays(defs: Defs, active: set<string>, node: RefOr, path: seq<string>,
                                       out: seq<EnvKey>, f: Fact)
    ensures Says(NodeOut(defs, active, node, path, out), f) <==> Says(out, f) || NodeSays(defs, active, node, path, f)
    decreases |defs.Keys - active|, node
  {
    match node
    case Ref(location) =>
      var name := LastSegment(location);
      if name !in active && name in defs {
        Fewer(defs, active, name);
        NodeOutSays(defs, active + {name}, defs[name], path, out, f);
      }
    case T(Object(ps, ty, about)) =>
      if ps == [] {
        LeafTypes(ty);
        SaysAppend(out, EnvKey(Join(path), TypesOf(ty), false, about), f);
      } else {
        PropertiesOutSays(defs, active, ps, path, out, f);
      }
    case T(Array(about)) => SaysAppend(out, EnvKey(Join(path), [TArray], true, about), f);
    case T(Composite(items)) =>
      ItemsOutSays(defs, active, items, path, [], InArm(f));
      MergeSays(ItemsOut(defs, active, items, path, []), out, f);
    case T(Other) =>
  }

  lemma {:induction false} PropertiesOutSays(defs: Defs, active: set<string>, ps: seq<Property>, path: seq<string>,
                                             out: seq<EnvKey>, f: Fact)
    ensures Says(PropertiesOut(defs, active, ps, path, out), f) <==>
            Says(out, f) || exists i :: 0 <= i < |ps| && NodeSays(defs, active, ps[i].node, path + [ps[i].name], f)
    decreases |defs.Keys - active|, ps
  {
    if ps != [] {
      var init, last := ps[..|ps| - 1], ps[|ps| - 1];
      PropertiesOutSays(defs, active, init, path, out, f);
      NodeOutSays(defs, active, last.node, path + [last.name], PropertiesOut(defs, active, init, path, out), f);
      assert forall i :: 0 <= i < |init| ==> init[i] == ps[i];
    }
  }

  lemma {:induction false} ItemsOutSays(defs: Defs, active: set<string>, items: seq<RefOr>, path: seq<string>,
                                        out: seq<EnvKey>, f: Fact)
    ensures Says(ItemsOut(defs, active, items, path, out), f) <==>
            Says(out, f) || exists i :: 0 <= i < |items| && NodeSays(defs, active, items[i], path, f)
    decreases |defs.Keys - active|, items
  {
    if items != [] {
      var init, last := items[..|items| - 1], items[|items| - 1];
      ItemsOutSays(defs, active, init, path, out, f);
      NodeOutSays(defs, active, last, path, ItemsOut(defs, active, init, path, out), f);
      assert forall i :: 0 <= i < |init| ==> init[i] == items[i];
    }
  }

  // ---- What a leaf is described as ---------------------------------------------------------

  ghost predicate Described(out: seq<EnvKey>, p: string, about: string) {
    exists i :: 0 <= i < |out| && out[i].path == p && out[i].about == Some(about)
  }

  lemma AppendDescribed(out: seq<EnvKey>, e: EnvKey, p: string, about: string)
    requires Described(out, p, about) || (e.path == p && e.about == Some(about))
    ensures Described(out + [e], p, about)
  {
    if Described(out, p, about) {
      var i :| 0 <= i < |out| && out[i].path == p && out[i].about == Some(about);
      assert (out + [e])[i] == out[i];
    } else {
      assert (out + [e])[|out|] == e;
    }
  }

  lemma {:induction false} MergeDescribed(arms: seq<EnvKey>, out: seq<EnvKey>, p: string, about: string)
    requires Described(out, p, about)
    ensures Described(Merge(arms, out), p, about)
  {
    if arms != [] {
      var init, last := arms[..|arms| - 1], arms[|arms| - 1];
      var prior := Merge(init, out);
      MergeDescribed(init, out, p, about);
      var i :| 0 <= i < |prior| && prior[i].path == p && prior[i].about == Some(about);
      if Position(prior, last.path) < |prior| {
        assert MergeOne(prior, last)[i].about == Some(about) && MergeOne(prior, last)[i].path == p;
      } else {
        AppendDescribed(prior, last, p, about);
      }
    }
  }

  /** A description listed is never lost. */
  lemma {:induction false} NodeDescribed(defs: Defs, active: set<string>, node: RefOr, path: seq<string>,
                                         out: seq<EnvKey>, p: string, about: string)
    requires Described(out, p, about)
    ensures Described(NodeOut(defs, active, node, path, out), p, about)
    decreases |defs.Keys - active|, node
  {
    match node
    case Ref(location) =>
      var name := LastSegment(location);
      if name !in active && name in defs {
        Fewer(defs, active, name);
        NodeDescribed(defs, active + {name}, defs[name], path, out, p, about);
      }
    case T(schema) => SchemaDescribed(defs, active, schema, path, out, p, about);
  }

  lemma {:induction false} SchemaDescribed(defs: Defs, active: set<string>, schema: Schema, path: seq<string>,
                                           out: seq<EnvKey>, p: string, about: string)
    requires Described(out, p, about)
    ensures Described(SchemaOut(defs, active, schema, path, out), p, about)
    decreases |defs.Keys - active|, schema
  {
    match schema
    case Object(ps, ty, text) =>
      if ps == [] {
        AppendDescribed(out, EnvKey(Join(path), TypesOf(ty), false, text), p, about);
      } else {
        PropertiesDescribed(defs, active, ps, path, out, p, about);
      }
    case Array(text) => AppendDescribed(out, EnvKey(Join(path), [TArray], true, text), p, about);
    case Composite(items) => MergeDescribed(ItemsOut(defs, active, items, path, []), out, p, about);
    case Other =>
  }

  lemma {:induction false} PropertiesDescribed(defs: Defs, active: set<string>, ps: seq<Property>, path: seq<string>,
                                               out: seq<EnvKey>, p: string, about: string)
    requires Described(out, p, about)
    ensures Described(PropertiesOut(defs, active, ps, path, out), p, about)
    decreases |defs.Keys - active|, ps
  {
    if ps != [] {
      var init, last := ps[..|ps| - 1], ps[|ps| - 1];
      var prior := PropertiesOut(defs, active, init, path, out);
      PropertiesDescribed(defs, active, init, path, out, p, about);
      NodeDescribed(defs, active, last.node, path + [last.name], prior, p, about);
    }
  }

  /** The node leads, through references and properties, to a leaf at `p` described as `about`. */
  predicate Leads(defs: Defs, active: set<string>, node: RefOr, path: seq<string>, p: string, about: string)
    decreases |defs.Keys - active|, node
  {
    match node
    case Ref(location) =>
      var name := LastSegment(location);
      name !in active && name in defs &&
      (Fewer(defs, active, name); Leads(defs, active + {name}, defs[name], path, p, about))
    case T(Object(ps, _, text)) =>
      if ps == [] then p == Join(path) && text == Some(about)
      else exists i :: 0 <= i < |ps| && Leads(defs, active, ps[i].node, path + [ps[i].name], p, about)
    case T(Array(text)) => p == Join(path) && text == Some(about)
    case T(Composite(_)) => false
    case T(Other) => false
  }

  /** Every leaf so reached is listed with its own description. */
  lemma {:induction false} LeafDescribed(defs: Defs, active: set<string>, node: RefOr, path: seq<string>,
                                         out: seq<EnvKey>, p: string, about: string)
    requires Leads(defs, active, node, path, p, about)
    ensures Described(NodeOut(defs, active, node, path, out), p, about)
    decreases |defs.Keys - active|, node
  {
    match node
    case Ref(location) =>
      var name := LastSegment(location);
      Fewer(defs, active, name);
      LeafDescribed(defs, active + {name}, defs[name], path, out, p, about);
    case T(schema) => SchemaLeafDescribed(defs, active, schema, path, out, p, about);
  }

  lemma {:induction false} SchemaLeafDescribed(defs: Defs, active: set<string>, schema: Schema, path: seq<string>,
                                               out: seq<EnvKey>, p: string, about: string)
    requires Leads(defs, active, T(schema), path, p, about)
    ensures Described(SchemaOut(defs, active, schema, path, out), p, about)
    decreases |defs.Keys - active|, schema
  {
    match schema
    case Object(ps, ty, text) =>
      if ps == [] {
        AppendDescribed(out, EnvKey(Join(path), TypesOf(ty), false, text), p, about);
      } else {
        PropertyDescribed(defs, active, ps, path, out, p, about);
      }
    case Array(text) => AppendDescribed(out, EnvKey(Join(path), [TArray], true, text), p, about);
  }

  lemma {:induction false} PropertyDescribed(defs: Defs, active: set<string>, ps: seq<Property>, path: seq<string>,
                                             out: seq<EnvKey>, p: string, about: string)
    requires exists i :: 0 <= i < |ps| && Leads(defs, active, ps[i].node, path + [ps[i].name], p, about)
    ensures Described(PropertiesOut(defs, active, ps, path, out), p, about)
    decreases |defs.Keys - active|, ps
  {
    var init, last := ps[..|ps| - 1], ps[|ps| - 1];
    var prior := PropertiesOut(defs, active, init, path, out);
    if Leads(defs, active, last.node, path + [last.name], p, about) {
      LeafDescribed(defs, active, last.node, path + [last.name], prior, p, about);
    } else {
      var i :| 0 <= i < |ps| && Leads(defs, active, ps[i].node, path + [ps[i].name], p, about);
      assert init[i] == ps[i];
      PropertyDescribed(defs, active, init, path, out, p, about);
      NodeDescribed(defs, active, last.node, path + [last.name], prior, p, about);
    }
  }

  // ---- One entry per path ------------------------------------------------------------------

  predicate DotFree(name: string) {
    '.' !in name
  }

  /** Every object under `node` has dot-free, distinct property names. */
  predicate NamesOk(node: RefOr) {
    match node
    case Ref(_) => true
    case T(Object(ps, _, _)) =>
      && (forall i :: 0 <= i < |ps| ==> DotFree(ps[i].name) && NamesOk(ps[i].node))
      && (forall i, j :: 0 <= i < j < |ps| ==> ps[i].name != ps[j].name)
    case T(Composite(items)) => forall i :: 0 <= i < |items| ==> NamesOk(items[i])
    case T(Array(_)) => true
    case T(Other) => true
  }

  predicate DefsOk(defs: Defs) {
    forall name :: name in defs ==> NamesOk(defs[name])
  }

  predicate PathOk(path: seq<string>) {
    forall i :: 0 <= i < |path| ==> DotFree(path[i])
  }

  predicate OnePerPath(out: seq<EnvKey>) {
    forall i, j :: 0 <= i < j < |out| ==> out[i].path != out[j].path
  }

  predicate Lists(out: seq<EnvKey>, p: string) {
    exists i :: 0 <= i < |out| && out[i].path == p
  }

  /** The dotted form of a path at or below `path`. */
  ghost predicate Under(path: seq<string>, p: string) {
    exists l: seq<string> :: PathOk(l) && path <= l && Join(l) == p
  }

  lemma UnderSelf(path: seq<string>)
    requires PathOk(path)
    ensures Under(path, Join(path))
  {
    assert path <= path;
  }

  lemma UnderParent(path: seq<string>, name: string, p: string)
    requires Under(path + [name], p)
    ensures Under(path, p)
  {
    var l :| PathOk(l) && path + [name] <= l && Join(l) == p;
    assert l[..|path + [name]|] == path + [name];
    assert l[..|path|] == l[..|path + [name]|][..|path|] == path;
  }

  /** The first segment of a joined path is what stands before the first dot. */
  lemma {:induction false} HeadUnique(a: string, x: string, b: string, y: string)
    requires DotFree(a) && DotFree(b) && a + x == b + y
    requires (x == [] || x[0] == '.') && (y == [] || y[0] == '.')
    ensures a == b && x == y
  {
    var s := a + x;
    assert forall i :: 0 <= i < |a| ==> s[i] == a[i] && s[i] in a;
    assert forall i :: 0 <= i < |b| ==> s[i] == b[i] && s[i] in b;
    assert |a| < |s| ==> s[|a|] == '.';
    assert |b| < |s| ==> s[|b|] == '.';
    assert |a| == |b|;
    assert a == s[..|a|] && b == s[..|b|] && x == s[|a|..] && y == s[|b|..];
  }

  lemma {:induction false} JoinInjective(a: seq<string>, b: seq<string>)
    requires PathOk(a) && PathOk(b) && a != [] && b != [] && Join(a) == Join(b)
    ensures a == b
  {
    var x := if |a| == 1 then "" else "." + Join(a[1..]);
    var y := if |b| == 1 then "" else "." + Join(b[1..]);
    assert Join(a) == a[0] + x && Join(b) == b[0] + y;
    HeadUnique(a[0], x, b[0], y);
    if |a| > 1 && |b| > 1 {
      assert Join(a[1..]) == x[1..] == y[1..] == Join(b[1..]);
      JoinInjective(a[1..], b[1..]);
      assert a == [a[0]] + a[1..] && b == [b[0]] + b[1..];
    } else {
      assert a == [a[0]] && b == [b[0]];
    }
  }

  /** Two children of one object share no path. */
  lemma SiblingsApart(path: seq<string>, m: string, n: string, p: string)
    requires Under(path + [m], p) && Under(path + [n], p)
    ensures m == n
  {
    var a :| PathOk(a) && path + [m] <= a && Join(a) == p;
    var b :| PathOk(b) && path + [n] <= b && Join(b) == p;
    JoinInjective(a, b);
    assert a[|path|] == (path + [m])[|path|] == m && b[|path|] == (path + [n])[|path|] == n;
  }

  lemma MergeOneUnique(out: seq<EnvKey>, arm: EnvKey)
    requires OnePerPath(out)
    ensures OnePerPath(MergeOne(out, arm))
  {
  }

  lemma {:induction false} MergeUnique(arms: seq<EnvKey>, out: seq<EnvKey>)
    requires OnePerPath(out)
    ensures OnePerPath(Merge(arms, out))
  {
    if arms != [] {
      MergeUnique(arms[..|arms| - 1], out);
      MergeOneUnique(Merge(arms[..|arms| - 1], out), arms[|arms| - 1]);
    }
  }

  lemma {:induction false} MergeLists(arms: seq<EnvKey>, out: seq<EnvKey>, p: string)
    requires Lists(Merge(arms, out), p)
    ensures Lists(out, p) || Lists(arms, p)
  {
    if arms != [] {
      var init, last := arms[..|arms| - 1], arms[|arms| - 1];
      var prior := Merge(init, out);
      var i :| 0 <= i < |Merge(arms, out)| && Merge(arms, out)[i].path == p;
      if p == last.path {
        assert arms[|arms| - 1].path == p;
      } else {
        assert i < |prior| && prior[i].path == p;
        MergeLists(init, out, p);
        if Lists(init, p) {
          var j :| 0 <= j < |init| && init[j].path == p;
          assert arms[j].path == p;
        }
      }
    }
  }

  /** Whatever is added is at or below the path the walk stands on. */
  lemma {:induction false} NodeOutUnder(defs: Defs, active: set<string>, node: RefOr, path: seq<string>,
                                        out: seq<EnvKey>, p: string)
    requires DefsOk(defs) && NamesOk(node) && PathOk(path)
    requires Lists(NodeOut(defs, active, node, path, out), p)
    ensures Lists(out, p) || Under(path, p)
    decreases |defs.Keys - active|, node
  {
    match node
    case Ref(location) =>
      var name := LastSegment(location);
      if name !in active && name in defs {
        Fewer(defs, active, name);
        NodeOutUnder(defs, active + {name}, defs[name], path, out, p);
      }
    case T(schema) => SchemaOutUnder(defs, active, schema, path, out, p);
  }

  lemma {:induction false} SchemaOutUnder(defs: Defs, active: set<string>, schema: Schema, path: seq<string>,
                                          out: seq<EnvKey>, p: string)
    requires DefsOk(defs) && NamesOk(T(schema)) && PathOk(path)
    requires Lists(SchemaOut(defs, active, schema, path, out), p)
    ensures Lists(out, p) || Under(path, p)
    decreases |defs.Keys - active|, schema
  {
    match schema
    case Object(ps, ty, about) =>
      if ps == [] {
        UnderSelf(path);
      } else {
        PropertiesOutUnder(defs, active, ps, path, out, p);
      }
    case Array(_) => UnderSelf(path);
    case Composite(items) =>
      MergeLists(ItemsOut(defs, active, items, path, []), out, p);
      if !Lists(out, p) {
        ItemsOutUnder(defs, active, items, path, [], p);
      }
    case Other =>
  }

  lemma {:induction false} PropertiesOutUnder(defs: Defs, active: set<string>, ps: seq<Property>, path: seq<string>,
                                              out: seq<EnvKey>, p: string)
    requires DefsOk(defs) && PathOk(path) && forall i :: 0 <= i < |ps| ==> DotFree(ps[i].name) && NamesOk(ps[i].node)
    requires Lists(PropertiesOut(defs, active, ps, path, out), p)
    ensures Lists(out, p) || exists i :: 0 <= i < |ps| && Under(path + [ps[i].name], p)
    ensures Lists(out, p) || Under(path, p)
    decreases |defs.Keys - active|, ps
  {
    if ps != [] {
      var init, last := ps[..|ps| - 1], ps[|ps| - 1];
      var prior := PropertiesOut(defs, active, init, path, out);
      NodeOutUnder(defs, active, last.node, path + [last.name], prior, p);
      if Lists(prior, p) {
        PropertiesOutUnder(defs, active, init, path, out, p);
        if !Lists(out, p) {
          var i :| 0 <= i < |init| && Under(path + [init[i].name], p);
          assert ps[i] == init[i];
        }
      } else {
        assert Under(path + [ps[|ps| - 1].name], p);
        UnderParent(path, last.name, p);
      }
    }
  }

  lemma {:induction false} ItemsOutUnder(defs: Defs, active: set<string>, items: seq<RefOr>, path: seq<string>,
                                         out: seq<EnvKey>, p: string)
    requires DefsOk(defs) && PathOk(path) && forall i :: 0 <= i < |items| ==> NamesOk(items[i])
    requires Lists(ItemsOut(defs, active, items, path, out), p)
    ensures Lists(out, p) || Under(path, p)
    decreases |defs.Keys - active|, items
  {
    if items != [] {
      var init, last := items[..|items| - 1], items[|items| - 1];
      var prior := ItemsOut(defs, active, init, path, out);
      NodeOutUnder(defs, active, last, path, prior, p);
      if Lists(prior, p) {
        ItemsOutUnder(defs, active, init, path, out, p);
      }
    }
  }

  ghost predicate ClearOf(out: seq<EnvKey>, path: seq<string>) {
    forall p :: Lists(out, p) ==> !Under(path, p)
  }

  lemma AppendUnique(out: seq<EnvKey>, e: EnvKey, path: seq<string>)
    requires OnePerPath(out) && ClearOf(out, path) && Under(path, e.path)
    ensures OnePerPath(out + [e])
  {
    forall i | 0 <= i < |out|
      ensures out[i].path != e.path
    {
      assert Lists(out, out[i].path);
    }
  }

  lemma {:induction false} NodeOutUnique(defs: Defs, active: set<string>, node: RefOr, path: seq<string>,
                                         out: seq<EnvKey>)
    requires DefsOk(defs) && NamesOk(node) && PathOk(path) && OnePerPath(out) && ClearOf(out, path)
    ensures OnePerPath(NodeOut(defs, active, node, path, out))
    decreases |defs.Keys - active|, node
  {
    match node
    case Ref(location) =>
      var name := LastSegment(location);
      if name !in active && name in defs {
        Fewer(defs, active, name);
        NodeOutUnique(defs, active + {name}, defs[name], path, out);
      }
    case T(Object(ps, ty, about)) =>
      if ps == [] {
        UnderSelf(path);
        AppendUnique(out, EnvKey(Join(path), TypesOf(ty), false, about), path);
      } else {
        PropertiesOutUnique(defs, active, ps, path, out);
      }
    case T(Array(about)) =>
      UnderSelf(path);
      AppendUnique(out, EnvKey(Join(path), [TArray], true, about), path);
    case T(Composite(items)) => MergeUnique(ItemsOut(defs, active, items, path, []), out);
    case T(Other) =>
  }

  lemma {:induction false} PropertiesOutUnique(defs: Defs, active: set<string>, ps: seq<Property>, path: seq<string>,
                                               out: seq<EnvKey>)
    requires DefsOk(defs) && PathOk(path) && OnePerPath(out) && ClearOf(out, path)
    requires forall i :: 0 <= i < |ps| ==> DotFree(ps[i].name) && NamesOk(ps[i].node)
    requires forall i, j :: 0 <= i < j < |ps| ==> ps[i].name != ps[j].name
    ensures OnePerPath(PropertiesOut(defs, active, ps, path, out))
    decreases |defs.Keys - active|, ps
  {
    if ps != [] {
      var init, last := ps[..|ps| - 1], ps[|ps| - 1];
      PropertiesOutUnique(defs, active, init, path, out);
      var prior := PropertiesOut(defs, active, init, path, out);
      forall p | Lists(prior, p)
        ensures !Under(path + [last.name], p)
      {
        PropertiesOutUnder(defs, active, init, path, out, p);
        if Under(path + [last.name], p) {
          UnderParent(path, last.name, p);
          assert !Lists(out, p);
          var i :| 0 <= i < |init| && Under(path + [init[i].name], p);
          SiblingsApart(path, init[i].name, last.name, p);
          assert false;
        }
      }
      NodeOutUnique(defs, active, last.node, path + [last.name], prior);
    }
  }

  /** Walking any component graph with dot-free names lists every key once. */
  lemma WalkUnique(defs: Defs, root: RefOr)
    requires DefsOk(defs) && NamesOk(root)
    ensures OnePerPath(NodeOut(defs, {}, root, [], []))
  {
    NodeOutUnique(defs, {}, root, [], []);
  }

  /** A dot inside a name makes two keys collide. */
  lemma DottedNamesCollide()
    ensures var text := T(Object([], One(TString), None));
            var inner := T(Object([Property("b", text)], AnyValue, None));
            var root := T(Object([Property("a.b", text), Property("a", inner)], AnyValue, None));
            !OnePerPath(NodeOut(map[], {}, root, [], []))
  {
    var text := T(Object([], One(TString), None));
    var inner := [Property("b", text)];
    var ps := [Property("a.b", text), Property("a", T(Object(inner, AnyValue, None)))];
    var defs: Defs := map[];
    var key := EnvKey("a.b", TypesOf(One(TString)), false, None);
    assert ps[..1] == [ps[0]] && ps[..1][..0] == [];
    assert PropertiesOut(defs, {}, ps[..1][..0], [], []) == [];
    assert Join([] + ["a.b"]) == "a.b";
    assert PropertiesOut(defs, {}, ps[..1], [], []) == [key];
    assert inner[..0] == [];
    var path := ["a"] + ["b"];
    assert path[1..] == ["b"] && Join(path[1..]) == "b" && Join(path) == "a" + "." + "b" == "a.b";
    assert PropertiesOut(defs, {}, inner[..0], ["a"], [key]) == [key];
    assert PropertiesOut(defs, {}, inner, ["a"], [key]) == [key, key];
    var nested := Object(inner, AnyValue, None);
    assert SchemaOut(defs, {}, nested, ["a"], [key]) == [key, key];
    assert NodeOut(defs, {}, T(nested), ["a"], [key]) == [key, key];
    assert [] + ["a"] == ["a"] && ps[..|ps| - 1] == ps[..1];
    assert PropertiesOut(defs, {}, ps, [], []) == [key, key];
    var root := Object(ps, AnyValue, None);
    assert SchemaOut(defs, {}, root, [], []) == [key, key];
    assert [key, key][0].path == [key, key][1].path;
  }
}
