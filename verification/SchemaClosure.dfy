/**
  The models that the generated API documentation has to list: everything the operations'
  parameters refer to, directly or through other models (`_render_api_docs`).
 */
module SchemaClosure {
  import opened Text
  import opened Wrappers

  /** A property's schema: its `$ref`, if that is a string, and its `anyOf` items */
  datatype Schema = NotAMapping | Schema(ref: Option<string>, anyOf: seq<Schema>)

  /** An entry of `$defs` */
  datatype Definition = NotAModel | Model(properties: seq<Schema>)

  /** One of an operation's `path_params`, `query` and `body` */
  datatype Bucket = NoBucket | Bucket(ref: Option<string>, properties: seq<Schema>)

  type Definitions = map<string, Definition>

  const PREFIX := "#/$defs/"

  /** `reference.rsplit("/", 1)[-1]` */
  function LastSegment(reference: string): string {
    if reference == "" || reference[|reference| - 1] == '/' then ""
    else LastSegment(reference[..|reference| - 1]) + [reference[|reference| - 1]]
  }

  /** The `$ref`s of a property: its own, then those of its `anyOf` items that are mappings */
  function Refs(raw: Schema): seq<Option<string>> {
    if raw.NotAMapping? then [] else [raw.ref] + ItemRefs(raw.anyOf)
  }

  function ItemRefs(items: seq<Schema>): seq<Option<string>> {
    if items == [] then []
    else (if items[0].NotAMapping? then [] else [items[0].ref]) + ItemRefs(items[1..])
  }

  predicate IsLocal(reference: Option<string>) {
    reference.Some? && PREFIX <= reference.value
  }

  function Last<T>(xs: seq<T>): T
    requires xs != []
  {
    xs[|xs| - 1]
  }

  function ButLast<T>(xs: seq<T>): seq<T>
    requires xs != []
  {
    xs[..|xs| - 1]
  }

  function LocalNames(refs: seq<Option<string>>): set<string> {
    if refs == [] then {}
    else LocalNames(ButLast(refs)) + if IsLocal(Last(refs)) then {LastSegment(Last(refs).value)} else {}
  }

  /** The definitions that a property refers to */
  function Names(raw: Schema): set<string> {
    LocalNames(Refs(raw))
  }

  function NamesOfAll(properties: seq<Schema>): set<string> {
    if properties == [] then {} else NamesOfAll(ButLast(properties)) + Names(Last(properties))
  }

  /** The definitions that a definition refers to; a name without a model refers to nothing. */
  function Edges(definitions: Definitions, name: string): set<string> {
    if name in definitions && definitions[name].Model? then NamesOfAll(definitions[name].properties) else {}
  }

  /** `_resolve_schema` of a bucket, then its properties */
  function BucketProperties(definitions: Definitions, bucket: Bucket): seq<Schema>
    requires bucket.Bucket?
  {
    if bucket.ref.Some? && LastSegment(bucket.ref.value) in definitions
       && definitions[LastSegment(bucket.ref.value)].Model?
    then definitions[LastSegment(bucket.ref.value)].properties
    else bucket.properties
  }

  function BucketNames(definitions: Definitions, bucket: Bucket): set<string> {
    if bucket.NoBucket? then {} else NamesOfAll(BucketProperties(definitions, bucket))
  }

  /** The definitions to which some bucket refers directly */
  function Roots(definitions: Definitions, buckets: seq<Bucket>): set<string> {
    if buckets == [] then {} else Roots(definitions, ButLast(buckets)) + BucketNames(definitions, Last(buckets))
  }

  // ----- what a reference is

  /** The name is what follows the last slash of the text, or the whole of it. */
  predicate IsLastSegment(text: string, name: string) {
    '/' !in name && (text == name || EndsWith(text, "/" + name))
  }

  /** The reference is local and names this definition. */
  predicate Points(reference: Option<string>, name: string) {
    reference.Some? && PREFIX <= reference.value && IsLastSegment(reference.value, name)
  }

  /** The property's own `$ref`, or that of an `anyOf` item that is a mapping, names this definition. */
  ghost predicate RefersTo(raw: Schema, name: string) {
    && raw.Schema?
    && (|| Points(raw.ref, name)
        || exists i :: 0 <= i < |raw.anyOf| && raw.anyOf[i].Schema? && Points(raw.anyOf[i].ref, name))
  }

  ghost predicate AnyRefersTo(properties: seq<Schema>, name: string) {
    exists i :: 0 <= i < |properties| && RefersTo(properties[i], name)
  }

  /** A property of the model refers to the child. */
  ghost predicate HasEdge(definitions: Definitions, name: string, child: string) {
    name in definitions && definitions[name].Model? && AnyRefersTo(definitions[name].properties, child)
  }

  /** A bucket stands for the model that its `$ref` names, wherever that lies, and otherwise for itself. */
  ghost predicate IsResolved(definitions: Definitions, bucket: Bucket, properties: seq<Schema>)
    requires bucket.Bucket?
  {
    if name :| && bucket.ref.Some? && IsLastSegment(bucket.ref.value, name)
               && name in definitions && definitions[name].Model?
    then properties == definitions[name].properties
    else properties == bucket.properties
  }

  lemma {:induction false} LastSegmentExactly(text: string, name: string)
    ensures LastSegment(text) == name <==> IsLastSegment(text, name)
  {
    var n := |text|;
    if text == "" {
    } else if text[n - 1] == '/' {
      if EndsWith(text, "/" + name) && name != "" {
        assert ("/" + name)[|name|] == text[n - 1];
        assert '/' in name;
      }
      assert EndsWith(text, "/" + "");
    } else {
      LastSegmentExactly(text[..n - 1], LastSegment(text[..n - 1]));
      LastSegmentGrows(text[..n - 1], LastSegment(text[..n - 1]), text[n - 1]);
      assert text == text[..n - 1] + [text[n - 1]];
      OneLastSegment(text, LastSegment(text), name);
    }
  }

  lemma LastSegmentGrows(text: string, name: string, c: char)
    requires IsLastSegment(text, name) && c != '/'
    ensures IsLastSegment(text + [c], name + [c])
  {
    if EndsWith(text, "/" + name) {
      assert (text + [c])[|text| - |name| - 1..] == text[|text| - |name| - 1..] + [c];
      assert "/" + (name + [c]) == "/" + name + [c];
    }
  }

  lemma SegmentIsSuffix(text: string, name: string)
    requires IsLastSegment(text, name)
    ensures |name| <= |text| && name == text[|text| - |name|..]
    ensures |name| < |text| ==> text[|text| - |name| - 1] == '/'
  {
    if EndsWith(text, "/" + name) {
      assert text[|text| - |name|..] == ("/" + name)[1..] == name;
      assert text[|text| - |name| - 1] == ("/" + name)[0];
    }
  }

  lemma SlashInLonger(text: string, short: string, long: string)
    requires IsLastSegment(text, short) && |short| < |long| <= |text| && long == text[|text| - |long|..]
    ensures '/' in long
  {
    SegmentIsSuffix(text, short);
    assert long[|long| - |short| - 1] == '/';
  }

  /** A text has only one last segment. */
  lemma OneLastSegment(text: string, a: string, b: string)
    requires IsLastSegment(text, a)
    ensures IsLastSegment(text, b) <==> a == b
  {
    if IsLastSegment(text, b) {
      SegmentIsSuffix(text, a);
      SegmentIsSuffix(text, b);
      if |a| < |b| {
        SlashInLonger(text, a, b);
        assert false;
      } else if |b| < |a| {
        SlashInLonger(text, b, a);
        assert false;
      }
    }
  }

  /** The definitions that a property refers to are those that its references name. */
  lemma NamesExactly(raw: Schema, name: string)
    ensures name in Names(raw) <==> RefersTo(raw, name)
  {
    LocalNamesExactly(Refs(raw), name);
    if raw.Schema? {
      ItemRefsExactly(raw.anyOf, name);
      assert Refs(raw) == [raw.ref] + ItemRefs(raw.anyOf);
      assert Points(raw.ref, name) ==> raw.ref in Refs(raw);
      forall r | r in Refs(raw) && Points(r, name) ensures RefersTo(raw, name) {
        assert r == raw.ref || r in ItemRefs(raw.anyOf);
      }
    }
  }

  lemma {:induction false} LocalNamesExactly(refs: seq<Option<string>>, name: string)
    ensures name in LocalNames(refs) <==> exists r :: r in refs && Points(r, name)
    decreases |refs|
  {
    hide LastSegment, IsLastSegment;
    if refs != [] {
      LocalNamesExactly(ButLast(refs), name);
      assert forall r :: r in refs <==> r in ButLast(refs) || r == Last(refs) by {
        assert refs == ButLast(refs) + [Last(refs)];
      }
      assert Points(Last(refs), name) <==> IsLocal(Last(refs)) && IsLastSegment(Last(refs).value, name);
      if Last(refs).Some? {
        LastSegmentExactly(Last(refs).value, name);
      }
    }
  }

  lemma {:induction false} ItemRefsExactly(items: seq<Schema>, name: string)
    ensures (exists r :: r in ItemRefs(items) && Points(r, name)) <==>
            (exists i :: 0 <= i < |items| && items[i].Schema? && Points(items[i].ref, name))
  {
    hide Points;
    if items != [] {
      ItemRefsExactly(items[1..], name);
      assert forall i :: 1 <= i < |items| ==> items[i] == items[1..][i - 1];
      if items[0].Schema? {
        assert items[0].ref in ItemRefs(items);
      }
    }
  }

  lemma {:induction false} NamesOfAllExactly(properties: seq<Schema>, name: string)
    ensures name in NamesOfAll(properties) <==> AnyRefersTo(properties, name)
    decreases |properties|
  {
    hide RefersTo, Names;
    if properties != [] {
      NamesOfAllExactly(ButLast(properties), name);
      NamesExactly(Last(properties), name);
      assert forall i :: 0 <= i < |properties| - 1 ==> ButLast(properties)[i] == properties[i];
    }
  }

  lemma EdgesExactly(definitions: Definitions, name: string)
    ensures forall child :: child in Edges(definitions, name) <==> HasEdge(definitions, name, child)
  {
    if name in definitions && definitions[name].Model? {
      forall child ensures child in NamesOfAll(definitions[name].properties) <==> HasEdge(definitions, name, child) {
        NamesOfAllExactly(definitions[name].properties, child);
      }
    }
  }

  /** The roots are what a property of a bucket, or of the model it stands for, refers to. */
  lemma {:induction false} RootsExactly(definitions: Definitions, buckets: seq<Bucket>, name: string)
    ensures name in Roots(definitions, buckets) <==>
      exists i, properties :: 0 <= i < |buckets| && buckets[i].Bucket?
        && IsResolved(definitions, buckets[i], properties) && AnyRefersTo(properties, name)
    decreases |buckets|
  {
    hide AnyRefersTo, IsResolved, BucketProperties;
    if buckets != [] {
      RootsExactly(definitions, ButLast(buckets), name);
      assert forall i :: 0 <= i < |buckets| - 1 ==> ButLast(buckets)[i] == buckets[i];
      var last := Last(buckets);
      if last.Bucket? {
        NamesOfAllExactly(BucketProperties(definitions, last), name);
        BucketIsResolved(definitions, last);
      }
    }
  }

  lemma BucketIsResolved(definitions: Definitions, bucket: Bucket)
    requires bucket.Bucket?
    ensures forall properties ::
      IsResolved(definitions, bucket, properties) <==> properties == BucketProperties(definitions, bucket)
  {
    if bucket.ref.Some? {
      LastSegmentExactly(bucket.ref.value, LastSegment(bucket.ref.value));
      forall name | IsLastSegment(bucket.ref.value, name) ensures name == LastSegment(bucket.ref.value) {
        OneLastSegment(bucket.ref.value, LastSegment(bucket.ref.value), name);
      }
      hide LastSegment, IsLastSegment;
    }
  }

  // ----- reachability

  ghost predicate IsPath(definitions: Definitions, path: seq<string>) {
    path != [] && forall i :: 0 <= i < |path| - 1 ==> HasEdge(definitions, path[i], path[i + 1])
  }

  /** A chain of references leads from a root to the name. */
  ghost predicate Reachable(definitions: Definitions, roots: set<string>, name: string) {
    exists path :: IsPath(definitions, path) && path[0] in roots && path[|path| - 1] == name
  }

  lemma RootIsReachable(definitions: Definitions, roots: set<string>, name: string)
    requires name in roots
    ensures Reachable(definitions, roots, name)
  {
    assert IsPath(definitions, [name]);
  }

  lemma EdgeIsReachable(definitions: Definitions, roots: set<string>, name: string, child: string)
    requires Reachable(definitions, roots, name) && child in Edges(definitions, name)
    ensures Reachable(definitions, roots, child)
  {
    EdgesExactly(definitions, name);
    hide HasEdge, Edges;
    var path :| IsPath(definitions, path) && path[0] in roots && path[|path| - 1] == name;
    var longer := path + [child];
    assert IsPath(definitions, longer) by {
      forall i | 0 <= i < |longer| - 1 ensures HasEdge(definitions, longer[i], longer[i + 1]) {
        if i < |path| - 1 {
          assert HasEdge(definitions, path[i], path[i + 1]);
        }
      }
    }
    assert longer[0] in roots && longer[|longer| - 1] == child;
  }

  /** A set that holds the roots and is closed under references holds everything reachable. */
  lemma {:induction false} ClosedHoldsPath(definitions: Definitions, closed: set<string>, path: seq<string>, i: nat)
    requires IsPath(definitions, path) && path[0] in closed && i < |path|
    requires forall n :: n in closed ==> Edges(definitions, n) <= closed
    ensures path[i] in closed
  {
    hide HasEdge, Edges;
    if i > 0 {
      ClosedHoldsPath(definitions, closed, path, i - 1);
      assert HasEdge(definitions, path[i - 1], path[i - 1 + 1]);
      EdgesExactly(definitions, path[i - 1]);
    }
  }

  lemma ClosedHoldsReachable(definitions: Definitions, roots: set<string>, closed: set<string>)
    requires roots <= closed && forall n :: n in closed ==> Edges(definitions, n) <= closed
    ensures forall n :: Reachable(definitions, roots, n) ==> n in closed
  {
    forall n | Reachable(definitions, roots, n) ensures n in closed {
      var path :| IsPath(definitions, path) && path[0] in roots && path[|path| - 1] == n;
      ClosedHoldsPath(definitions, closed, path, |path| - 1);
    }
  }

  // ----- the worklist

  /** Every name that can ever be referenced */
  function Universe(definitions: Definitions, roots: set<string>): set<string> {
    roots + set n, c | n in definitions && c in Edges(definitions, n) :: c
  }

  /** The loops that collect what the buckets refer to directly */
  method CollectRoots(definitions: Definitions, buckets: seq<Bucket>) returns (referenced: set<string>)
    ensures referenced == Roots(definitions, buckets)
  {
    hide Names, BucketNames;
    referenced := {};
    for i := 0 to |buckets|
      invariant referenced == Roots(definitions, buckets[..i])
    {
      RootsSnoc(definitions, buckets, i);
      if buckets[i].Bucket? {
        var more := CollectNames(BucketProperties(definitions, buckets[i]));
        BucketNamesOf(definitions, buckets[i]);
        referenced := referenced + more;
      } else {
        BucketNamesOf(definitions, buckets[i]);
      }
    }
    assert buckets[..|buckets|] == buckets;
  }

  lemma BucketNamesOf(definitions: Definitions, bucket: Bucket)
    ensures BucketNames(definitions, bucket) ==
            if bucket.NoBucket? then {} else NamesOfAll(BucketProperties(definitions, bucket))
  {
  }

  lemma RootsSnoc(definitions: Definitions, buckets: seq<Bucket>, i: nat)
    requires i < |buckets|
    ensures Roots(definitions, buckets[..i + 1]) ==
            Roots(definitions, buckets[..i]) + BucketNames(definitions, buckets[i])
  {
    assert ButLast(buckets[..i + 1]) == buckets[..i] && Last(buckets[..i + 1]) == buckets[i];
  }

  method CollectNames(properties: seq<Schema>) returns (names: set<string>)
    ensures names == NamesOfAll(properties)
  {
    names := {};
    for i := 0 to |properties|
      invariant names == NamesOfAll(properties[..i])
    {
      NamesSnoc(properties, i);
      ghost var before := names;
      var refs := Refs(properties[i]);
      assert refs[..|refs|] == refs;
      for j := 0 to |refs|
        invariant names == before + LocalNames(refs[..j])
      {
        LocalNamesSnoc(refs, j);
        if IsLocal(refs[j]) {
          names := names + {LastSegment(refs[j].value)};
        }
      }
    }
    assert properties[..|properties|] == properties;
  }

  lemma NamesSnoc(properties: seq<Schema>, i: nat)
    requires i < |properties|
    ensures NamesOfAll(properties[..i + 1]) == NamesOfAll(properties[..i]) + Names(properties[i])
  {
    assert ButLast(properties[..i + 1]) == properties[..i] && Last(properties[..i + 1]) == properties[i];
  }

  lemma LocalNamesSnoc(refs: seq<Option<string>>, i: nat)
    requires i < |refs|
    ensures LocalNames(refs[..i + 1]) ==
            LocalNames(refs[..i]) + if IsLocal(refs[i]) then {LastSegment(refs[i].value)} else {}
  {
    assert ButLast(refs[..i + 1]) == refs[..i] && Last(refs[..i + 1]) == refs[i];
  }

  /** `list(referenced)`, in any order */
  method ListOf(names: set<string>) returns (list: seq<string>)
    ensures forall n :: n in list <==> n in names
  {
    var rest := names;
    list := [];
    while rest != {}
      invariant rest <= names
      invariant forall n :: n in list <==> n in names && n !in rest
    {
      var n :| n in rest;
      rest := rest - {n};
      list := list + [n];
    }
  }

  /**
    The models to document: exactly the names that a chain of references reaches from the
    operations, cycles and dangling names included. Each name enters the worklist once.
   */
  method ReferencedModels(definitions: Definitions, buckets: seq<Bucket>) returns (referenced: set<string>)
    ensures forall n :: n in referenced <==> Reachable(definitions, Roots(definitions, buckets), n)
  {
    hide Edges, Roots, Reachable, NamesOfAll, Universe;
    ghost var roots := Roots(definitions, buckets);
    referenced := CollectRoots(definitions, buckets);
    var pending := ListOf(referenced);
    ghost var universe := Universe(definitions, roots);
    RootsInUniverse(definitions, roots);
    forall n | n in referenced ensures Reachable(definitions, roots, n) {
      RootIsReachable(definitions, roots, n);
    }
    while pending != []
      invariant roots <= referenced <= universe
      invariant forall n :: n in referenced ==> Reachable(definitions, roots, n)
      invariant forall n :: n in pending ==> n in referenced
      invariant forall n :: n in referenced && n !in pending ==> Edges(definitions, n) <= referenced
      decreases universe - referenced, |pending|
    {
      var name := pending[|pending| - 1];
      assert pending == pending[..|pending| - 1] + [name];
      pending := pending[..|pending| - 1];
      EdgesInUniverse(definitions, roots, name);
      EdgesOf(definitions, name);
      forall child | child in Edges(definitions, name) ensures Reachable(definitions, roots, child) {
        EdgeIsReachable(definitions, roots, name, child);
      }
      if name in definitions && definitions[name].Model? {
        ghost var already, waiting := referenced, pending;
        referenced, pending := Expand(definitions, name, referenced, pending);
        EnqueuedMembers(already, waiting, referenced, pending);
      }
    }
    ClosedHoldsReachable(definitions, roots, referenced);
  }

  lemma RootsInUniverse(definitions: Definitions, roots: set<string>)
    ensures roots <= Universe(definitions, roots)
  {
  }

  lemma EdgesInUniverse(definitions: Definitions, roots: set<string>, name: string)
    ensures Edges(definitions, name) <= Universe(definitions, roots)
  {
  }

  lemma EdgesOf(definitions: Definitions, name: string)
    ensures Edges(definitions, name) ==
            if name in definitions && definitions[name].Model? then NamesOfAll(definitions[name].properties) else {}
  {
  }

  /** What a step adds to the worklist is what it adds to the referenced names, each name once. */
  ghost predicate Enqueued(already: set<string>, waiting: seq<string>, referenced: set<string>, pending: seq<string>) {
    && already <= referenced && waiting <= pending
    && (forall n :: n in pending[|waiting|..] <==> n in referenced - already)
    && |pending| == |waiting| + |referenced - already|
  }

  lemma EnqueueNew(
    already: set<string>, waiting: seq<string>, referenced: set<string>, pending: seq<string>, child: string)
    requires Enqueued(already, waiting, referenced, pending) && child !in referenced
    ensures Enqueued(already, waiting, referenced + {child}, pending + [child])
  {
    assert (pending + [child])[|waiting|..] == pending[|waiting|..] + [child];
    assert referenced + {child} - already == (referenced - already) + {child};
  }

  lemma EnqueuedMembers(already: set<string>, waiting: seq<string>, referenced: set<string>, pending: seq<string>)
    requires Enqueued(already, waiting, referenced, pending)
    ensures forall n :: n in pending <==> n in waiting || n in referenced - already
  {
    assert pending == waiting + pending[|waiting|..];
  }

  /** The body of the worklist's loop: adds the children of a model that are not referenced yet. */
  method Expand(definitions: Definitions, name: string, already: set<string>, waiting: seq<string>)
    returns (referenced: set<string>, pending: seq<string>)
    requires name in definitions && definitions[name].Model?
    ensures referenced == already + Edges(definitions, name)
    ensures Enqueued(already, waiting, referenced, pending)
  {
    hide Names, NamesOfAll, Enqueued;
    referenced, pending := already, waiting;
    NothingEnqueued(already, waiting);
    var properties := definitions[name].properties;
    NoNames(properties);
    for i := 0 to |properties|
      invariant referenced == already + NamesOfAll(properties[..i])
      invariant Enqueued(already, waiting, referenced, pending)
    {
      NamesSnoc(properties, i);
      referenced, pending := ExpandProperty(properties[i], already, waiting, referenced, pending);
    }
    assert properties[..|properties|] == properties;
  }

  lemma NothingEnqueued(already: set<string>, waiting: seq<string>)
    ensures Enqueued(already, waiting, already, waiting)
  {
    assert already - already == {};
  }

  lemma NoNames(properties: seq<Schema>)
    ensures NamesOfAll(properties[..0]) == {}
  {
  }

  method ExpandProperty(
    raw: Schema, ghost already: set<string>, ghost waiting: seq<string>,
    referenced0: set<string>, pending0: seq<string>)
    returns (referenced: set<string>, pending: seq<string>)
    requires Enqueued(already, waiting, referenced0, pending0)
    ensures referenced == referenced0 + Names(raw)
    ensures Enqueued(already, waiting, referenced, pending)
  {
    hide Enqueued, Refs, LastSegment;
    referenced, pending := referenced0, pending0;
    var references := Refs(raw);
    for j := 0 to |references|
      invariant referenced == referenced0 + LocalNames(references[..j])
      invariant Enqueued(already, waiting, referenced, pending)
    {
      LocalNamesSnoc(references, j);
      if IsLocal(references[j]) {
        var child := LastSegment(references[j].value);
        if child !in referenced {
          EnqueueNew(already, waiting, referenced, pending, child);
          referenced := referenced + {child};
          pending := pending + [child];
        }
      }
    }
    assert references[..|references|] == references;
  }
}
