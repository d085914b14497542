/** The document diff of the replay tool (src/tools/jev_variant.cpp). Paths are sequences of keys and indices;
    the keys of an object may be walked in any order. */
module JsonDiff {
  import opened Common

  /** A JSON document; numbers are compared by value. */
  datatype Json =
    | Null
    | Bool(b: bool)
    | Number(value: real)
    | String(text: string)
    | Array(items: seq<Json>)
    | Object(fields: map<string, Json>)

  datatype Hop = Key(key: string) | Index(index: nat)

  type Path = seq<Hop>

  /** A changed value, or one of the three structural differences. */
  datatype Entry =
    | Change(path: Path, from: Json, to: Json)
    | KeySetDiffers(path: Path)
    | KeyMissing(path: Path)
    | LengthDiffers(path: Path)

  // ----- paths -----------------------------------------------------------------------------------------------

  function Child(doc: Json, hop: Hop): Option<Json> {
    match hop
    case Key(k) => if doc.Object? && k in doc.fields then Some(doc.fields[k]) else None
    case Index(i) => if doc.Array? && i < |doc.items| then Some(doc.items[i]) else None
  }

  function WithChild(doc: Json, hop: Hop, child: Json): Json
    requires Child(doc, hop).Some?
  {
    match hop
    case Key(k) => Object(doc.fields[k := child])
    case Index(i) => Array(doc.items[i := child])
  }

  function Lookup(doc: Json, path: Path): Option<Json> {
    if path == [] then Some(doc)
    else
      var c := Child(doc, path[0]);
      if c == None then None else Lookup(c.value, path[1..])
  }

  /** The document with the value at an existing path replaced. */
  function Replace(doc: Json, path: Path, value: Json): Json
    decreases |path|
  {
    if path == [] then value
    else
      var c := Child(doc, path[0]);
      if c == None then doc else WithChild(doc, path[0], Replace(c.value, path[1..], value))
  }

  /** The changes of a diff applied one after the other. */
  function Patched(doc: Json, es: seq<Entry>): Json {
    if es == [] then doc
    else
      var d := Patched(doc, es[..|es| - 1]);
      var e := es[|es| - 1];
      if e.Change? then Replace(d, e.path, e.to) else d
  }

  // ----- what a diff says ------------------------------------------------------------------------------------

  /** Not both objects and not both arrays: compared as a whole. */
  predicate Leaves(a: Json, b: Json) { !(a.Object? && b.Object?) && !(a.Array? && b.Array?) }

  /** The same keys and lengths wherever both documents have an object or an array. */
  ghost predicate SameShape(a: Json, b: Json) {
    if a.Object? && b.Object? then
      a.fields.Keys == b.fields.Keys && forall k :: k in a.fields ==> SameShape(a.fields[k], b.fields[k])
    else if a.Array? && b.Array? then
      |a.items| == |b.items| && forall i :: 0 <= i < |a.items| ==> SameShape(a.items[i], b.items[i])
    else true
  }

  ghost predicate ErrorFree(es: seq<Entry>) { forall e :: e in es ==> e.Change? }

  /** A change is about a leaf that exists on both sides and differs. */
  ghost predicate TrueChange(before: Json, after: Json, e: Entry) {
    e.Change? ==>
      && Lookup(before, e.path) == Some(e.from) && Lookup(after, e.path) == Some(e.to)
      && e.from != e.to && Leaves(e.from, e.to)
  }

  /** What the entries of a diff say: they are true, there are none exactly for equal documents, errors exactly
      for differing shapes, and without errors they patch one document into the other. */
  ghost predicate Describes(before: Json, after: Json, es: seq<Entry>) {
    && (forall e :: e in es ==> TrueChange(before, after, e))
    && (es == [] <==> before == after)
    && (ErrorFree(es) <==> SameShape(before, after))
    && (ErrorFree(es) ==> Patched(before, es) == after)
  }

  /** Both objects or both arrays, of the same size: compared child by child. */
  predicate Walked(a: Json, b: Json) {
    || (a.Object? && b.Object? && |a.fields| == |b.fields|)
    || (a.Array? && b.Array? && |a.items| == |b.items|)
  }

  /** Down `path`, through containers of the same size on both sides, the documents differ as the entry says: in a
      leaf, in the size of an object or of an array, or in a key that only the first has. */
  ghost predicate Differs(before: Json, after: Json, e: Entry, path: Path)
    decreases |path|
  {
    if path == [] then
      match e
      case Change(_, from, to) => from == before && to == after && before != after && Leaves(before, after)
      case KeySetDiffers(_) => before.Object? && after.Object? && |before.fields| != |after.fields|
      case LengthDiffers(_) => before.Array? && after.Array? && |before.items| != |after.items|
      case KeyMissing(_) => false
    else
      var b, a := Child(before, path[0]), Child(after, path[0]);
      && Walked(before, after) && b.Some?
      && if a == None then e.KeyMissing? && |path| == 1 else Differs(b.value, a.value, e, path[1..])
  }

  /** The entries are exactly the differences there are. */
  ghost predicate Tells(before: Json, after: Json, es: seq<Entry>) {
    forall e :: e in es <==> Differs(before, after, e, e.path)
  }

  /** An entry seen from further up. */
  function Under(hop: Hop, e: Entry): Entry {
    match e
    case Change(p, from, to) => Change([hop] + p, from, to)
    case KeySetDiffers(p) => KeySetDiffers([hop] + p)
    case KeyMissing(p) => KeyMissing([hop] + p)
    case LengthDiffers(p) => LengthDiffers([hop] + p)
  }

  function AllUnder(hop: Hop, es: seq<Entry>): seq<Entry> {
    seq(|es|, i requires 0 <= i < |es| => Under(hop, es[i]))
  }

  lemma {:induction false} PatchedConcat(doc: Json, a: seq<Entry>, b: seq<Entry>)
    ensures Patched(doc, a + b) == Patched(Patched(doc, a), b)
  {
    if b == [] {
      assert a + b == a;
    } else {
      assert (a + b)[..|a| + |b| - 1] == a + b[..|b| - 1];
      PatchedConcat(doc, a, b[..|b| - 1]);
    }
  }

  /** Changes below one child patch that child and leave the rest alone. */
  lemma {:induction false} PatchedUnder(doc: Json, hop: Hop, es: seq<Entry>)
    requires Child(doc, hop).Some?
    ensures Patched(doc, AllUnder(hop, es)) == WithChild(doc, hop, Patched(Child(doc, hop).value, es))
  {
    var c := Child(doc, hop).value;
    if es == [] {
      assert WithChild(doc, hop, c) == doc;
    } else {
      var before, e := es[..|es| - 1], es[|es| - 1];
      assert AllUnder(hop, es)[..|es| - 1] == AllUnder(hop, before);
      PatchedUnder(doc, hop, before);
      var d := WithChild(doc, hop, Patched(c, before));
      assert Child(d, hop) == Some(Patched(c, before));
      if e.Change? {
        assert ([hop] + e.path)[1..] == e.path;
        assert WithChild(d, hop, Replace(Patched(c, before), e.path, e.to))
            == WithChild(doc, hop, Replace(Patched(c, before), e.path, e.to));
      }
    }
  }

  // ----- the children of an object or array, some of them done -----------------------------------------------

  /** A child with the same value on both sides, and one of the same shape. */
  predicate SameChild(a: Json, b: Json, hop: Hop) { Child(b, hop).Some? && Child(a, hop) == Child(b, hop) }

  ghost predicate SameShapeChild(a: Json, b: Json, hop: Hop) {
    Child(a, hop).Some? && Child(b, hop).Some? && SameShape(Child(a, hop).value, Child(b, hop).value)
  }

  /** `before` with the children done replaced by those of `after`. */
  function Mixed(before: Json, after: Json, done: set<Hop>): Json {
    match before
    case Object(fs) => Object(map k | k in fs :: if Key(k) in done
        && Child(after, Key(k)).Some? then Child(after, Key(k)).value else fs[k])
    case Array(items) => Array(seq(|items|, i requires 0 <= i < |items| =>
        if Index(i) in done && Child(after, Index(i)).Some? then Child(after, Index(i)).value else items[i]))
    case _ => before
  }

  ghost predicate Partly(before: Json, after: Json, done: set<Hop>, es: seq<Entry>) {
    && (forall e :: e in es ==> TrueChange(before, after, e))
    && (es == [] <==> forall h :: h in done ==> SameChild(before, after, h))
    && (ErrorFree(es) <==> forall h :: h in done ==> SameShapeChild(before, after, h))
    && (ErrorFree(es) ==> Patched(before, es) == Mixed(before, after, done))
  }

  lemma NothingDone(before: Json, after: Json)
    ensures Partly(before, after, {}, [])
  {
    assert Mixed(before, after, {}) == before;
  }

  /** A child compared. */
  lemma ChildDone(before: Json, after: Json, done: set<Hop>, es: seq<Entry>, hop: Hop, cs: seq<Entry>)
    requires Partly(before, after, done, es) && hop !in done
    requires Child(before, hop).Some? && Child(after, hop).Some?
    requires Describes(Child(before, hop).value, Child(after, hop).value, cs)
    ensures Partly(before, after, done + {hop}, es + AllUnder(hop, cs))
  {
    hide TrueChange, SameShape, Patched, Lookup, ErrorFree;
    var all := es + AllUnder(hop, cs);
    var b, a := Child(before, hop).value, Child(after, hop).value;
    forall e | e in all ensures TrueChange(before, after, e) {
      if e !in es {
        var i :| 0 <= i < |cs| && e == Under(hop, cs[i]);
        assert cs[i] in cs;
        UnderIsTrue(before, after, hop, cs[i]);
      }
    }
    UnderErrors(hop, cs);
    ErrorsConcat(es, AllUnder(hop, cs));
    assert all == [] <==> es == [] && cs == [];
    assert SameShapeChild(before, after, hop) <==> SameShape(b, a);
    assert SameChild(before, after, hop) <==> b == a;
    if ErrorFree(all) {
      MixedMore(before, after, done, hop);
      PatchedConcat(before, es, AllUnder(hop, cs));
      PatchedUnder(Mixed(before, after, done), hop, cs);
    }
  }

  lemma UnderIsTrue(before: Json, after: Json, hop: Hop, e: Entry)
    requires Child(before, hop).Some? && Child(after, hop).Some?
    requires TrueChange(Child(before, hop).value, Child(after, hop).value, e)
    ensures TrueChange(before, after, Under(hop, e))
  {
    if e.Change? { assert ([hop] + e.path)[1..] == e.path; }
  }

  lemma ErrorsConcat(a: seq<Entry>, b: seq<Entry>)
    ensures ErrorFree(a + b) <==> ErrorFree(a) && ErrorFree(b)
  {
    assert forall e :: e in a ==> e in a + b;
    assert forall e :: e in b ==> e in a + b;
  }

  lemma UnderErrors(hop: Hop, cs: seq<Entry>)
    ensures ErrorFree(AllUnder(hop, cs)) <==> ErrorFree(cs)
  {
    var us := AllUnder(hop, cs);
    if ErrorFree(cs) {
      forall e | e in us ensures e.Change? {
        var i :| 0 <= i < |us| && us[i] == e;
        assert e == Under(hop, cs[i]) && cs[i] in cs;
      }
    }
    if ErrorFree(us) {
      forall e | e in cs ensures e.Change? {
        var i :| 0 <= i < |cs| && cs[i] == e;
        assert us[i] == Under(hop, e) && us[i] in us;
      }
    }
  }

  lemma MixedMore(before: Json, after: Json, done: set<Hop>, hop: Hop)
    requires hop !in done && Child(before, hop).Some? && Child(after, hop).Some?
    ensures Child(Mixed(before, after, done), hop) == Child(before, hop)
    ensures WithChild(Mixed(before, after, done), hop, Child(after, hop).value) == Mixed(before, after, done + {hop})
  {
  }

  /** A key of `before` that `after` lacks. */
  lemma MissingDone(before: Json, after: Json, done: set<Hop>, es: seq<Entry>, hop: Hop)
    requires Partly(before, after, done, es) && Child(after, hop) == None
    ensures Partly(before, after, done + {hop}, es + [KeyMissing([hop])])
  {
    hide TrueChange, Patched, Mixed;
    var all := es + [KeyMissing([hop])];
    assert KeyMissing([hop]) in all && hop in done + {hop};
    assert !SameChild(before, after, hop) && !SameShapeChild(before, after, hop);
    hide SameShapeChild, SameChild;
    assert forall e :: e in all ==> e in es || e == KeyMissing([hop]);
    assert TrueChange(before, after, KeyMissing([hop])) by { ErrorsAreTrue(before, after, KeyMissing([hop])); }
  }

  lemma ErrorsAreTrue(before: Json, after: Json, e: Entry)
    requires !e.Change?
    ensures TrueChange(before, after, e)
  {
  }

  /** All keys compared, and as many on the other side. */
  lemma ObjectDone(before: Json, after: Json, done: set<Hop>, es: seq<Entry>)
    requires before.Object? && after.Object? && |before.fields| == |after.fields|
    requires done == (set k | k in before.fields :: Key(k)) && Partly(before, after, done, es)
    ensures Describes(before, after, es)
  {
    assert forall k :: k in before.fields ==> Key(k) in done;
    if forall k :: k in before.fields ==> k in after.fields {
      SubsetFull(before.fields.Keys, after.fields.Keys);
      assert Mixed(before, after, done) == after;
      assert (forall h :: h in done ==> SameChild(before, after, h)) <==> before.fields == after.fields by {
        if forall h :: h in done ==> SameChild(before, after, h) {
          forall k | k in before.fields ensures before.fields[k] == after.fields[k] {
            assert SameChild(before, after, Key(k));
          }
        }
      }
      assert (forall h :: h in done ==> SameShapeChild(before, after, h)) <==> SameShape(before, after) by {
        if forall h :: h in done ==> SameShapeChild(before, after, h) {
          forall k | k in before.fields ensures SameShape(before.fields[k], after.fields[k]) {
            assert SameShapeChild(before, after, Key(k));
          }
        }
      }
    } else {
      var k :| k in before.fields && k !in after.fields;
      assert !SameChild(before, after, Key(k)) && !SameShapeChild(before, after, Key(k));
    }
  }

  /** All items compared. */
  lemma ArrayDone(before: Json, after: Json, done: set<Hop>, es: seq<Entry>)
    requires before.Array? && after.Array? && |before.items| == |after.items|
    requires done == (set i: nat | i < |before.items| :: Index(i)) && Partly(before, after, done, es)
    ensures Describes(before, after, es)
  {
    assert forall i: nat :: i < |before.items| ==> Index(i) in done;
    assert Mixed(before, after, done) == after;
    assert (forall h :: h in done ==> SameChild(before, after, h)) <==> before.items == after.items by {
      if forall h :: h in done ==> SameChild(before, after, h) {
        forall i: nat | i < |before.items| ensures before.items[i] == after.items[i] {
          assert SameChild(before, after, Index(i));
        }
      }
    }
    assert (forall h :: h in done ==> SameShapeChild(before, after, h)) <==> SameShape(before, after) by {
      if forall h :: h in done ==> SameShapeChild(before, after, h) {
        forall i: nat | i < |before.items| ensures SameShape(before.items[i], after.items[i]) {
          assert SameShapeChild(before, after, Index(i));
        }
      }
    }
  }

  // ----- every difference, and no other ----------------------------------------------------------------------

  /** The entries are exactly the differences below the children done. */
  ghost predicate PartlyTells(before: Json, after: Json, done: set<Hop>, es: seq<Entry>) {
    forall e :: e in es <==> (e.path != [] && e.path[0] in done && Differs(before, after, e, e.path))
  }

  lemma DiffersUnder(before: Json, after: Json, hop: Hop, e: Entry)
    requires Walked(before, after) && Child(before, hop).Some? && Child(after, hop).Some?
    ensures Differs(before, after, Under(hop, e), [hop] + e.path)
         == Differs(Child(before, hop).value, Child(after, hop).value, e, e.path)
  {
    assert ([hop] + e.path)[1..] == e.path;
    DiffersAlike(Child(before, hop).value, Child(after, hop).value, e, Under(hop, e), e.path);
  }

  /** Where the entry itself stands does not matter. */
  lemma {:induction false} DiffersAlike(before: Json, after: Json, e: Entry, e': Entry, path: Path)
    requires e' == e.(path := e'.path)
    ensures Differs(before, after, e, path) == Differs(before, after, e', path)
    decreases |path|
  {
    if path != [] && Child(before, path[0]).Some? && Child(after, path[0]).Some? {
      DiffersAlike(Child(before, path[0]).value, Child(after, path[0]).value, e, e', path[1..]);
    }
  }

  /** A child compared. */
  lemma ChildTold(before: Json, after: Json, done: set<Hop>, es: seq<Entry>, hop: Hop, cs: seq<Entry>)
    requires PartlyTells(before, after, done, es) && hop !in done && Walked(before, after)
    requires Child(before, hop).Some? && Child(after, hop).Some?
    requires Tells(Child(before, hop).value, Child(after, hop).value, cs)
    ensures PartlyTells(before, after, done + {hop}, es + AllUnder(hop, cs))
  {
    hide Differs, Walked, Child, AllUnder, Tells;
    forall e
      ensures e in AllUnder(hop, cs) <==> (e.path != [] && e.path[0] == hop && Differs(before, after, e, e.path))
    {
      UnderTold(before, after, hop, cs, e);
    }
  }

  lemma UnderTold(before: Json, after: Json, hop: Hop, cs: seq<Entry>, e: Entry)
    requires Walked(before, after) && Child(before, hop).Some? && Child(after, hop).Some?
    requires Tells(Child(before, hop).value, Child(after, hop).value, cs)
    ensures e in AllUnder(hop, cs) <==> (e.path != [] && e.path[0] == hop && Differs(before, after, e, e.path))
  {
    hide Differs, Walked, Child;
    if e in AllUnder(hop, cs) {
      var i :| 0 <= i < |cs| && e == Under(hop, cs[i]);
      assert cs[i] in cs;
      DiffersUnder(before, after, hop, cs[i]);
    }
    if e.path != [] && e.path[0] == hop && Differs(before, after, e, e.path) {
      var below := e.(path := e.path[1..]);
      assert e.path == [hop] + below.path && e == Under(hop, below);
      DiffersUnder(before, after, hop, below);
      var i :| 0 <= i < |cs| && cs[i] == below;
      assert AllUnder(hop, cs)[i] == e;
    }
  }

  lemma NothingTold(before: Json, after: Json)
    ensures PartlyTells(before, after, {}, [])
  {
  }

  /** A key that only the first has. */
  lemma MissingTold(before: Json, after: Json, done: set<Hop>, es: seq<Entry>, hop: Hop)
    requires PartlyTells(before, after, done, es) && hop !in done && Walked(before, after)
    requires Child(before, hop).Some? && Child(after, hop) == None
    ensures PartlyTells(before, after, done + {hop}, es + [KeyMissing([hop])])
  {
    forall e
      ensures e == KeyMissing([hop]) <==> (e.path != [] && e.path[0] == hop && Differs(before, after, e, e.path))
    {
    }
  }

  /** All children compared. */
  lemma AllTold(before: Json, after: Json, done: set<Hop>, es: seq<Entry>)
    requires PartlyTells(before, after, done, es) && Walked(before, after)
    requires forall hop :: Child(before, hop).Some? ==> hop in done
    ensures Tells(before, after, es)
  {
    hide Child;
    assert forall e: Entry :: e.path == [] ==> !Differs(before, after, e, e.path);
  }

  /** Nothing to compare child by child. */
  lemma LeafTold(before: Json, after: Json)
    requires !Walked(before, after)
    ensures Tells(before, after,
                  if before.Object? && after.Object? then [KeySetDiffers([])]
                  else if before.Array? && after.Array? then [LengthDiffers([])]
                  else if before != after then [Change([], before, after)] else [])
  {
  }

  // ----- the diff --------------------------------------------------------------------------------------------

  /** Entries as they are reported, with absolute paths. */
  function AllAt(pointer: Path, es: seq<Entry>): seq<Entry> {
    seq(|es|, i requires 0 <= i < |es| => es[i].(path := pointer + es[i].path))
  }

  lemma AllAtUnder(pointer: Path, hop: Hop, es: seq<Entry>, cs: seq<Entry>)
    ensures AllAt(pointer, es + AllUnder(hop, cs)) == AllAt(pointer, es) + AllAt(pointer + [hop], cs)
  {
    var all := es + AllUnder(hop, cs);
    forall i: nat | i < |cs| ensures AllAt(pointer, all)[|es| + i] == AllAt(pointer + [hop], cs)[i] {
      assert all[|es| + i] == Under(hop, cs[i]);
      assert pointer + ([hop] + cs[i].path) == pointer + [hop] + cs[i].path;
    }
  }

  class DiffReport {
    var entries: seq<Entry>

    constructor ()
      ensures entries == []
    {
      entries := [];
    }

    method Push(e: Entry)
      modifies this
      ensures entries == old(entries) + [e]
    {
      entries := entries + [e];
    }

    /** `diffJson`: appends what a diff of the two documents says, below the pointer. */
    method DiffJson(before: Json, after: Json, pointer: Path) returns (ghost es: seq<Entry>)
      modifies this
      ensures Describes(before, after, es) && Tells(before, after, es)
      ensures entries == old(entries) + AllAt(pointer, es)
      decreases before, 1
    {
      hide Differs;
      assert pointer + [] == pointer;
      if !Walked(before, after) { LeafTold(before, after); }
      if before.Object? && after.Object? {
        if |before.fields| != |after.fields| {
          es := [KeySetDiffers([])];
          Push(KeySetDiffers(pointer));
          assert es[0] in es && before.fields.Keys != after.fields.Keys;
          return;
        }
        es := DiffFields(before, after, pointer);
        return;
      }
      if before.Array? && after.Array? {
        if |before.items| != |after.items| {
          es := [LengthDiffers([])];
          Push(LengthDiffers(pointer));
          assert es[0] in es;
          return;
        }
        es := DiffItems(before, after, pointer);
        return;
      }
      es := [];
      if before != after {
        es := [Change([], before, after)];
        Push(Change(pointer, before, after));
        assert es[..0] == [];
      }
    }

    /** The keys of two objects of the same size. */
    method DiffFields(before: Json, after: Json, pointer: Path) returns (ghost es: seq<Entry>)
      requires before.Object? && after.Object? && |before.fields| == |after.fields|
      modifies this
      ensures Describes(before, after, es) && Tells(before, after, es)
      ensures entries == old(entries) + AllAt(pointer, es)
      decreases before, 0
    {
      hide Describes, Partly, Mixed, PartlyTells, Tells;
      es := [];
      var left := before.fields.Keys;
      ghost var done: set<Hop> := {};
      NothingDone(before, after);
      NothingTold(before, after);
      while exists k :: k in left
        invariant left <= before.fields.Keys && done == (set k | k in before.fields && k !in left :: Key(k))
        invariant Partly(before, after, done, es) && PartlyTells(before, after, done, es)
        invariant entries == old(entries) + AllAt(pointer, es)
        decreases left
      {
        var k :| k in left;
        if k !in after.fields {
          Push(KeyMissing(pointer + [Key(k)]));
          MissingDone(before, after, done, es, Key(k));
          MissingTold(before, after, done, es, Key(k));
          es := es + [KeyMissing([Key(k)])];
        } else {
          ghost var cs := DiffJson(before.fields[k], after.fields[k], pointer + [Key(k)]);
          ChildDone(before, after, done, es, Key(k), cs);
          ChildTold(before, after, done, es, Key(k), cs);
          AllAtUnder(pointer, Key(k), es, cs);
          es := es + AllUnder(Key(k), cs);
        }
        left := left - {k};
        done := done + {Key(k)};
      }
      ObjectDone(before, after, done, es);
      AllTold(before, after, done, es);
    }

    /** The items of two arrays of the same length. */
    method DiffItems(before: Json, after: Json, pointer: Path) returns (ghost es: seq<Entry>)
      requires before.Array? && after.Array? && |before.items| == |after.items|
      modifies this
      ensures Describes(before, after, es) && Tells(before, after, es)
      ensures entries == old(entries) + AllAt(pointer, es)
      decreases before, 0
    {
      hide Describes, Partly, Mixed, PartlyTells, Tells;
      es := [];
      ghost var done: set<Hop> := {};
      NothingDone(before, after);
      NothingTold(before, after);
      var i := 0;
      while i < |before.items|
        invariant i <= |before.items| && done == (set j: nat | j < i :: Index(j))
        invariant Partly(before, after, done, es) && PartlyTells(before, after, done, es)
        invariant entries == old(entries) + AllAt(pointer, es)
      {
        ghost var cs := DiffJson(before.items[i], after.items[i], pointer + [Index(i)]);
        ChildDone(before, after, done, es, Index(i), cs);
        ChildTold(before, after, done, es, Index(i), cs);
        AllAtUnder(pointer, Index(i), es, cs);
        es := es + AllUnder(Index(i), cs);
        done := done + {Index(i)};
        i := i + 1;
      }
      ArrayDone(before, after, done, es);
      AllTold(before, after, done, es);
    }
  }

  /** `describeWordingDiff`: exactly the differences there are, none for equal documents, and without errors a patch. */
  method DescribeWordingDiff(before: Json, after: Json) returns (diff: seq<Entry>)
    ensures Describes(before, after, diff) && Tells(before, after, diff)
  {
    var report := new DiffReport();
    ghost var es := report.DiffJson(before, after, []);
    diff := report.entries;
    assert forall i :: 0 <= i < |es| ==> [] + es[i].path == es[i].path;
    assert diff == es;
  }
}
