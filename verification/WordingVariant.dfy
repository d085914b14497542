/** The prior-wording variant of a request (`buildPreviousWordingVariant` in src/tools/jev_variant.cpp). */
module WordingVariant {
  import opened Common
  import opened JsonDiff

  const BIAS_INSTRUCTIONS: Path := [Key("questions"), Key("bias"), Key("instructions")]
  const INTENT_INSTRUCTIONS: Path := [Key("questions"), Key("intent"), Key("instructions")]
  const CRITERIA: Path := [Key("questions"), Key("intent"), Key("criteria")]
  const CLOSE: Path := [Key("questions"), Key("intent"), Key("criteria"), Key("close")]

  const BIAS_WORDING := String("long or short?")
  const INTENT_WORDING := String("open, close, or hold?")
  const CLOSE_WORDING := String("reduce the current position")

  /** The request has the fields `at` asks for; otherwise an exception is thrown. */
  predicate HasWording(request: Json) {
    && Lookup(request, BIAS_INSTRUCTIONS).Some? && Lookup(request, INTENT_INSTRUCTIONS).Some?
    && Lookup(request, CRITERIA).Some?
  }

  /** A changed copy of the request: two replacements, and a third when there is a close description. */
  function Variant(request: Json): Json {
    var v := Replace(Replace(request, BIAS_INSTRUCTIONS, BIAS_WORDING), INTENT_INSTRUCTIONS, INTENT_WORDING);
    if Lookup(request, CLOSE).Some? then Replace(v, CLOSE, CLOSE_WORDING) else v
  }

  // ----- replacing at a path ---------------------------------------------------------------------------------

  /** One path leads to or beyond the other. */
  predicate Related(p: Path, q: Path) { p <= q || q <= p }

  lemma {:induction false} ReplacedThere(doc: Json, p: Path, v: Json)
    requires Lookup(doc, p).Some?
    ensures Lookup(Replace(doc, p, v), p) == Some(v)
    decreases |p|
  {
    if p != [] {
      ReplacedThere(Child(doc, p[0]).value, p[1..], v);
    }
  }

  /** Nothing off the path changes. */
  lemma {:induction false} ReplacedElsewhere(doc: Json, p: Path, v: Json, q: Path)
    requires !Related(p, q)
    ensures Lookup(Replace(doc, p, v), q) == Lookup(doc, q)
    decreases |p|
  {
    assert p != [] && q != [];
    if Child(doc, p[0]).Some? {
      if p[0] == q[0] {
        assert p == [p[0]] + p[1..] && q == [q[0]] + q[1..];
        ReplacedElsewhere(Child(doc, p[0]).value, p[1..], v, q[1..]);
      }
    }
  }

  /** On the way to a value under keys there are objects. */
  lemma {:induction false} ObjectsAbove(doc: Json, p: Path, q: Path)
    requires Lookup(doc, p).Some? && q < p && p[|q|].Key?
    ensures Lookup(doc, q).Some? && Lookup(doc, q).value.Object?
    decreases |p|
  {
    if q != [] {
      assert q[0] == p[0];
      ObjectsAbove(Child(doc, p[0]).value, p[1..], q[1..]);
    }
  }

  lemma {:induction false} LookupBeyond(doc: Json, p: Path, q: Path)
    requires p <= q
    ensures Lookup(doc, q) == if Lookup(doc, p) == None then None else Lookup(Lookup(doc, p).value, q[|p|..])
    decreases |p|
  {
    if p != [] && Child(doc, p[0]).Some? {
      LookupBeyond(Child(doc, p[0]).value, p[1..], q[1..]);
      assert q[1..][|p[1..]|..] == q[|p|..];
    } else if p == [] {
      assert q[0..] == q;
    }
  }

  lemma {:induction false} SameShapeSelf(doc: Json)
    ensures SameShape(doc, doc)
  {
    match doc {
      case Object(fs) => forall k | k in fs ensures SameShape(fs[k], fs[k]) { SameShapeSelf(fs[k]); }
      case Array(items) =>
        forall i | 0 <= i < |items| ensures SameShape(items[i], items[i]) {
          SameShapeSelf(items[i]);
        }
      case _ =>
    }
  }

  /** Replacing an existing value by a text keeps the shape of a document of the same shape. */
  lemma {:induction false} ReplaceKeepsShape(a: Json, doc: Json, p: Path, text: string)
    requires SameShape(a, doc) && Lookup(doc, p).Some?
    ensures SameShape(a, Replace(doc, p, String(text)))
    decreases |p|
  {
    if p != [] && Child(a, p[0]).Some? {
      ReplaceKeepsShape(Child(a, p[0]).value, Child(doc, p[0]).value, p[1..], text);
    }
  }

  // ----- the variant -----------------------------------------------------------------------------------------

  /** The values the variant may change. */
  predicate Wording(p: Path) { p == BIAS_INSTRUCTIONS || p == INTENT_INSTRUCTIONS || p == CLOSE }

  /** The three paths lead to different values. */
  lemma Apart()
    ensures !Related(BIAS_INSTRUCTIONS, INTENT_INSTRUCTIONS) && !Related(INTENT_INSTRUCTIONS, BIAS_INSTRUCTIONS)
    ensures !Related(BIAS_INSTRUCTIONS, CLOSE) && !Related(CLOSE, BIAS_INSTRUCTIONS)
    ensures !Related(INTENT_INSTRUCTIONS, CLOSE) && !Related(CLOSE, INTENT_INSTRUCTIONS)
    ensures !Related(BIAS_INSTRUCTIONS, CRITERIA) && !Related(INTENT_INSTRUCTIONS, CRITERIA)
  {
    assert BIAS_INSTRUCTIONS[1] != INTENT_INSTRUCTIONS[1] && BIAS_INSTRUCTIONS[1] != CLOSE[1]
        && BIAS_INSTRUCTIONS[1] != CRITERIA[1];
    assert INTENT_INSTRUCTIONS[2] != CLOSE[2] && INTENT_INSTRUCTIONS[2] != CRITERIA[2];
  }

  /** The pinned wording stands in its places, and everything off those places is as in the request. */
  lemma VariantChangesWordingOnly(request: Json, q: Path)
    requires HasWording(request)
    ensures Lookup(Variant(request), BIAS_INSTRUCTIONS) == Some(BIAS_WORDING)
    ensures Lookup(Variant(request), INTENT_INSTRUCTIONS) == Some(INTENT_WORDING)
    ensures Lookup(Variant(request), CLOSE) == if Lookup(request, CLOSE).Some? then Some(CLOSE_WORDING) else None
    ensures !Related(BIAS_INSTRUCTIONS, q) && !Related(INTENT_INSTRUCTIONS, q)
            && (Lookup(request, CLOSE).Some? ==> !Related(CLOSE, q)) ==>
      Lookup(Variant(request), q) == Lookup(request, q)
    ensures SameShape(request, Variant(request))
  {
    hide Replace, Lookup, Related;
    Apart();
    var v1 := Replace(request, BIAS_INSTRUCTIONS, BIAS_WORDING);
    var v2 := Replace(v1, INTENT_INSTRUCTIONS, INTENT_WORDING);
    var v3 := Replace(v2, CLOSE, CLOSE_WORDING);
    ReplacedThere(request, BIAS_INSTRUCTIONS, BIAS_WORDING);
    ReplacedElsewhere(request, BIAS_INSTRUCTIONS, BIAS_WORDING, INTENT_INSTRUCTIONS);
    ReplacedElsewhere(request, BIAS_INSTRUCTIONS, BIAS_WORDING, CLOSE);
    ReplacedThere(v1, INTENT_INSTRUCTIONS, INTENT_WORDING);
    ReplacedElsewhere(v1, INTENT_INSTRUCTIONS, INTENT_WORDING, BIAS_INSTRUCTIONS);
    ReplacedElsewhere(v1, INTENT_INSTRUCTIONS, INTENT_WORDING, CLOSE);
    ReplacedElsewhere(v2, CLOSE, CLOSE_WORDING, BIAS_INSTRUCTIONS);
    ReplacedElsewhere(v2, CLOSE, CLOSE_WORDING, INTENT_INSTRUCTIONS);
    if Lookup(request, CLOSE).Some? { ReplacedThere(v2, CLOSE, CLOSE_WORDING); }
    if !Related(BIAS_INSTRUCTIONS, q) && !Related(INTENT_INSTRUCTIONS, q) {
      ReplacedElsewhere(request, BIAS_INSTRUCTIONS, BIAS_WORDING, q);
      ReplacedElsewhere(v1, INTENT_INSTRUCTIONS, INTENT_WORDING, q);
      if !Related(CLOSE, q) { ReplacedElsewhere(v2, CLOSE, CLOSE_WORDING, q); }
    }
    SameShapeSelf(request);
    ReplaceKeepsShape(request, request, BIAS_INSTRUCTIONS, BIAS_WORDING.text);
    ReplaceKeepsShape(request, v1, INTENT_INSTRUCTIONS, INTENT_WORDING.text);
    if Lookup(request, CLOSE).Some? { ReplaceKeepsShape(request, v2, CLOSE, CLOSE_WORDING.text); }
  }

  /** A true change related to a replaced value is that value's. */
  lemma ChangeAt(before: Json, after: Json, e: Entry, p: Path)
    requires e.Change? && TrueChange(before, after, e) && Related(p, e.path) && forall i :: 0 <= i < |p| ==> p[i].Key?
    requires Lookup(before, p).Some? && Lookup(after, p).Some? && Lookup(after, p).value.String?
    ensures e.path == p
  {
    if e.path < p {
      ObjectsAbove(before, p, e.path);
      ObjectsAbove(after, p, e.path);
    } else if p < e.path {
      LookupBeyond(after, p, e.path);
    }
  }

  /** A change whose path is the wording's, to the pinned wording. */
  predicate PinsWording(after: Json, e: Entry) {
    e.Change? && Wording(e.path) && Lookup(after, e.path) == Some(e.to) && e.to.String?
  }

  lemma WordingChange(request: Json, e: Entry)
    requires HasWording(request) && e.Change? && TrueChange(request, Variant(request), e)
    ensures PinsWording(Variant(request), e)
  {
    assert Lookup(Variant(request), e.path) == Some(e.to) && Lookup(request, e.path) == Some(e.from) && e.from != e.to;
    hide Lookup, Variant, Related, TrueChange;
    VariantChangesWordingOnly(request, e.path);
    if Related(BIAS_INSTRUCTIONS, e.path) {
      ChangeAt(request, Variant(request), e, BIAS_INSTRUCTIONS);
    } else if Related(INTENT_INSTRUCTIONS, e.path) {
      ChangeAt(request, Variant(request), e, INTENT_INSTRUCTIONS);
    } else if Lookup(request, CLOSE).Some? && Related(CLOSE, e.path) {
      ChangeAt(request, Variant(request), e, CLOSE);
    }
  }

  /** The diff of a request and its variant reports no error and nothing but the wording, changed to the pinned
      wording. */
  lemma DiffIsWordingOnly(request: Json, es: seq<Entry>)
    requires HasWording(request) && Describes(request, Variant(request), es)
    ensures forall e :: e in es ==> PinsWording(Variant(request), e)
  {
    hide Lookup, Variant, TrueChange, HasWording, Patched, SameShape, PinsWording;
    VariantChangesWordingOnly(request, []);
    forall e | e in es ensures PinsWording(Variant(request), e) {
      assert TrueChange(request, Variant(request), e);
      WordingChange(request, e);
    }
  }

  /** What a path of three hops finds. */
  lemma ThreeHops(doc: Json, a: Hop, b: Hop, c: Hop)
    ensures Lookup(doc, [a, b, c]).Some? <==>
      && Child(doc, a).Some?
      && Child(Child(doc, a).value, b).Some?
      && Child(Child(Child(doc, a).value, b).value, c).Some?
  {
    assert [a, b, c][1..] == [b, c] && [b, c][1..] == [c] && [c][1..] == [];
    if Child(doc, a).Some? {
      var d := Child(doc, a).value;
      assert Lookup(doc, [a, b, c]) == Lookup(d, [b, c]);
      if Child(d, b).Some? {
        var e := Child(d, b).value;
        assert Lookup(d, [b, c]) == Lookup(e, [c]);
        assert Child(e, c).Some? ==> Lookup(e, [c]) == Some(Child(e, c).value);
      }
    }
  }

  lemma FirstHop(doc: Json, h: Hop, rest: Path, v: Json)
    ensures Lookup(doc, [h] + rest) == if Child(doc, h).Some? then Lookup(Child(doc, h).value, rest) else None
    ensures Child(doc, h).Some? ==>
      Replace(doc, [h] + rest, v) == WithChild(doc, h, Replace(Child(doc, h).value, rest, v))
  {
    assert ([h] + rest)[1..] == rest;
  }

  /** Replacing at a path of three hops, from the inside out. */
  lemma ReplaceThree(doc: Json, a: Hop, b: Hop, c: Hop, v: Json)
    requires Lookup(doc, [a, b, c]).Some?
    ensures Child(doc, a).Some? && Child(Child(doc, a).value, b).Some?
    ensures Child(Child(Child(doc, a).value, b).value, c).Some?
    ensures var d := Child(doc, a).value; var e := Child(d, b).value;
      Replace(doc, [a, b, c], v) == WithChild(doc, a, WithChild(d, b, WithChild(e, c, v)))
  {
    ThreeHops(doc, a, b, c);
    var d := Child(doc, a).value;
    var e := Child(d, b).value;
    assert [a, b, c] == [a] + [b, c] && [b, c] == [b] + [c] && [c] == [c] + [];
    FirstHop(doc, a, [b, c], v);
    FirstHop(d, b, [c], v);
    FirstHop(e, c, [], v);
  }

  /** The three replacements made field by field. */
  lemma VariantByFields(request: Json)
    requires HasFields(request)
    ensures var questions := Child(request, Key("questions")).value;
      var bias, intent := Child(questions, Key("bias")).value, Child(questions, Key("intent")).value;
      var newBias := WithChild(bias, Key("instructions"), BIAS_WORDING);
      var newIntent := WithChild(intent, Key("instructions"), INTENT_WORDING);
      var criteria := Child(intent, Key("criteria")).value;
      var closed := if Child(criteria, Key("close")).Some?
                    then WithChild(newIntent, Key("criteria"), WithChild(criteria, Key("close"), CLOSE_WORDING))
                    else newIntent;
      Variant(request) == WithChild(request, Key("questions"),
                                    WithChild(WithChild(questions, Key("bias"), newBias), Key("intent"), closed))
  {
    hide Replace, Lookup, Related;
    WordingHops(request);
    Apart();
    var q, t := Key("questions"), Key("intent");
    var tail := [t, Key("criteria"), Key("close")];
    var v1 := Replace(request, BIAS_INSTRUCTIONS, BIAS_WORDING);
    var v2 := Replace(v1, INTENT_INSTRUCTIONS, INTENT_WORDING);
    var questions := Child(request, q).value;
    var intent := Child(questions, t).value;
    var q1 := WithChild(questions, Key("bias"), WithChild(Child(questions, Key("bias")).value, Key("instructions"),
        BIAS_WORDING));
    var newIntent := WithChild(intent, Key("instructions"), INTENT_WORDING);
    var q2 := WithChild(q1, t, newIntent);
    ReplaceThree(request, q, Key("bias"), Key("instructions"), BIAS_WORDING);
    ReplacedElsewhere(request, BIAS_INSTRUCTIONS, BIAS_WORDING, INTENT_INSTRUCTIONS);
    ReplaceThree(v1, q, t, Key("instructions"), INTENT_WORDING);
    Twice(request, q, q1, q2);
    assert v2 == WithChild(request, q, q2);
    assert CLOSE == [q] + tail;
    FirstHop(request, q, tail, CLOSE_WORDING);
    ThreeHops(questions, t, Key("criteria"), Key("close"));
    var criteria := Child(intent, Key("criteria")).value;
    if Child(criteria, Key("close")).Some? {
      var closed := WithChild(newIntent, Key("criteria"), WithChild(criteria, Key("close"), CLOSE_WORDING));
      ThreeHops(q2, t, Key("criteria"), Key("close"));
      ReplaceThree(q2, t, Key("criteria"), Key("close"), CLOSE_WORDING);
      Twice(q1, t, newIntent, closed);
      FirstHop(v2, q, tail, CLOSE_WORDING);
      Twice(request, q, q2, WithChild(q1, t, closed));
    }
  }

  lemma Twice(doc: Json, h: Hop, a: Json, b: Json)
    requires Child(doc, h).Some?
    ensures Child(WithChild(doc, h, a), h) == Some(a)
    ensures WithChild(WithChild(doc, h, a), h, b) == WithChild(doc, h, b)
  {
  }

  /** The fields `at` asks for, hop by hop. */
  predicate HasFields(request: Json) {
    var questions := Child(request, Key("questions"));
    questions.Some? &&
    var bias, intent := Child(questions.value, Key("bias")), Child(questions.value, Key("intent"));
    && bias.Some? && intent.Some? && Child(bias.value, Key("instructions")).Some?
    && Child(intent.value, Key("instructions")).Some? && Child(intent.value, Key("criteria")).Some?
  }

  lemma WordingHops(request: Json)
    ensures HasWording(request) <==> HasFields(request)
  {
    ThreeHops(request, Key("questions"), Key("bias"), Key("instructions"));
    ThreeHops(request, Key("questions"), Key("intent"), Key("instructions"));
    ThreeHops(request, Key("questions"), Key("intent"), Key("criteria"));
  }

  /** `buildPreviousWordingVariant`: None for an exception. */
  method BuildPreviousWordingVariant(request: Json) returns (variant: Option<Json>)
    ensures variant == if HasWording(request) then Some(Variant(request)) else None
  {
    WordingHops(request);
    var questions := Child(request, Key("questions"));
    if questions == None {
      return None;
    }
    var bias, intent := Child(questions.value, Key("bias")), Child(questions.value, Key("intent"));
    if bias == None || intent == None || Child(bias.value, Key("instructions")) == None
       || Child(intent.value, Key("instructions")) == None || Child(intent.value, Key("criteria")) == None {
      return None;
    }
    VariantByFields(request);
    hide Variant, HasWording;
    var newBias := WithChild(bias.value, Key("instructions"), BIAS_WORDING);
    var newIntent := WithChild(intent.value, Key("instructions"), INTENT_WORDING);
    var criteria := Child(newIntent, Key("criteria")).value;
    if Child(criteria, Key("close")).Some? {
      newIntent := WithChild(newIntent, Key("criteria"), WithChild(criteria, Key("close"), CLOSE_WORDING));
    }
    var newQuestions := WithChild(WithChild(questions.value, Key("bias"), newBias), Key("intent"), newIntent);
    return Some(WithChild(request, Key("questions"), newQuestions));
  }
}
