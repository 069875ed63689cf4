/** Following $ref chains outside JSON schemas: inspection at load time and the deref loop. */
module References {
  import opened Redis
  import opened Sets
  import opened Json
  import opened Text
  import P = Pointers

  datatype Fault = Cyclic | Unresolved(fault: P.Fault) | TypeError

  datatype Result<+T> = Ok(value: T) | Err(fault: Fault)

  // What Python's `in` and indexing do

  predicate ContainsText(s: string, part: string)
    requires part != []
    decreases |s|
  {
    |s| >= |part| && (s[..|part|] == part || ContainsText(s[1..], part))
  }

  /** "$ref" in value: a member of an object, an element of an array, a substring of a string; None when
      the test raises TypeError. */
  function HasRef(value: Json): Option<bool> {
    match value
    case JObj(fields) => Some("$ref" in fields)
    case JArr(items) => Some(JStr("$ref") in items)
    case JStr(s) => Some(ContainsText(s, "$ref"))
    case _ => None
  }

  predicate IsRef(value: Json) {
    value.JObj? && "$ref" in value.fields && value.fields["$ref"].JStr?
  }

  function RefOf(value: Json): string
    requires IsRef(value)
  {
    value.fields["$ref"].s
  }

  /** ref[1:] */
  function Path(ref: string): string {
    if ref == "" then "" else ref[1..]
  }

  // Inspection

  predicate Forbidden(key: string) {
    key in ["$id", "$dynamicRef", "$dynamicAnchor"]
  }

  /** The traversal of the constructor: no forbidden key, and every $ref anywhere is a document-local
      pointer that resolves. The schema check of a library is not part of this. */
  predicate Inspect(document: Json, value: Json)
    decreases value
  {
    match value
    case JObj(fields) =>
      forall key | key in fields ::
        && !Forbidden(key)
        && (key == "$ref" ==>
              fields[key].JStr? && |fields[key].s| >= 2 && fields[key].s[..2] == "#/"
              && P.Pointer(document, Path(fields[key].s)).Ok?)
        && Inspect(document, fields[key])
    case JArr(items) => forall i | 0 <= i < |items| :: Inspect(document, items[i])
    case _ => true
  }

  /** All strings that stand as a $ref somewhere inside the value. */
  function Refs(value: Json): set<string>
    decreases value
  {
    match value
    case JObj(fields) =>
      (if IsRef(value) then {RefOf(value)} else {}) + (set key, r | key in fields && r in Refs(fields[key]) :: r)
    case JArr(items) => set i, r | 0 <= i < |items| && r in Refs(items[i]) :: r
    case _ => {}
  }

  /** All members of objects anywhere inside the value. */
  function Members(value: Json): set<(string, Json)>
    decreases value
  {
    match value
    case JObj(fields) =>
      (set key | key in fields :: (key, fields[key])) + (set key, m | key in fields && m in Members(fields[key]) :: m)
    case JArr(items) => set i, m | 0 <= i < |items| && m in Members(items[i]) :: m
    case _ => {}
  }

  /** A member the inspection lets pass: none of the three keys outside the supported subset; and a $ref is '#' and
      a non-empty JSON pointer that evaluates in the document. */
  ghost predicate Admitted(document: Json, key: string, child: Json) {
    && key != "$id" && key != "$dynamicRef" && key != "$dynamicAnchor"
    && (key == "$ref" ==> child.JStr? && |child.s| >= 2 && child.s[0] == '#' && child.s[1] == '/'
                          && P.Pointer(document, child.s[1..]).Ok?)
  }

  lemma AdmittedMeans(document: Json, key: string, child: Json)
    ensures Admitted(document, key, child) <==>
      && !Forbidden(key)
      && (key == "$ref" ==>
            child.JStr? && |child.s| >= 2 && child.s[..2] == "#/" && P.Pointer(document, Path(child.s)).Ok?)
  {
    if child.JStr? && |child.s| >= 2 { assert child.s[..2] == [child.s[0], child.s[1]]; }
  }

  /** The inspection passes exactly when every member at any depth does. */
  lemma {:induction false} InspectMeans(document: Json, value: Json)
    ensures Inspect(document, value) <==> forall m :: m in Members(value) ==> Admitted(document, m.0, m.1)
    decreases value
  {
    hide Admitted, P.Pointer, Forbidden, Path;
    match value
    case JObj(fields) =>
      forall key | key in fields
        ensures Inspect(document, fields[key]) <==>
                  forall m :: m in Members(fields[key]) ==> Admitted(document, m.0, m.1)
        ensures Members(fields[key]) <= Members(value) && (key, fields[key]) in Members(value)
      {
        InspectMeans(document, fields[key]);
        AdmittedMeans(document, key, fields[key]);
      }
      forall key | key in fields { AdmittedMeans(document, key, fields[key]); }
    case JArr(items) =>
      forall i | 0 <= i < |items|
        ensures Inspect(document, items[i]) <==>
                  forall m :: m in Members(items[i]) ==> Admitted(document, m.0, m.1)
        ensures Members(items[i]) <= Members(value)
      {
        InspectMeans(document, items[i]);
      }
    case _ =>
  }

  /** Inside a value, the inspection and the references are those of the whole. */
  lemma ChildInside(document: Json, value: Json, token: string)
    requires P.Child(value, token).Ok?
    ensures Refs(P.Child(value, token).value) <= Refs(value)
    ensures Inspect(document, value) ==> Inspect(document, P.Child(value, token).value)
  {
  }

  lemma {:induction false} DescendInside(document: Json, value: Json, tokens: seq<string>)
    requires P.Descend(value, tokens).Ok?
    ensures Refs(P.Descend(value, tokens).value) <= Refs(value)
    ensures Inspect(document, value) ==> Inspect(document, P.Descend(value, tokens).value)
    decreases |tokens|
  {
    if tokens != [] {
      var next := P.Child(value, P.Unescape(tokens[0])).value;
      ChildInside(document, value, P.Unescape(tokens[0]));
      DescendInside(document, next, tokens[1..]);
    }
  }

  /** Every target of a pointer is a part of the document. */
  lemma TargetInside(document: Json, path: string)
    requires P.Pointer(document, path).Ok?
    ensures Refs(P.Pointer(document, path).value) <= Refs(document)
    ensures Inspect(document, document) ==> Inspect(document, P.Pointer(document, path).value)
  {
    if path != "" { DescendInside(document, document, Split(path[1..], '/')); }
  }

  lemma OwnRef(value: Json)
    requires IsRef(value)
    ensures RefOf(value) in Refs(value)
  {
  }

  // The loop

  /** One reference followed; anything that raises on the way is an error. */
  function Hop(document: Json, value: Json): Result<Json> {
    if !value.JObj? || "$ref" !in value.fields || !value.fields["$ref"].JStr? then Err(TypeError)
    else
      var target := P.Pointer(document, Path(RefOf(value)));
      if target.Ok? then Ok(target.value) else Err(Unresolved(target.fault))
  }

  /** A reference to any node of the document, written as '#' and the pointer of the standard, leads to that
      node. */
  lemma RefFindsNode(document: Json, path: seq<P.Ref>, fields: map<string, Json>)
    requires P.Walk(document, path).Some? && "$ref" in fields
    requires fields["$ref"] == JStr("#" + P.Encode(path))
    ensures Hop(document, JObj(fields)) == Ok(P.Walk(document, path).value)
  {
    assert ("#" + P.Encode(path))[1..] == P.Encode(path);
    P.PointerFindsNode(document, path);
  }

  function Chase(document: Json, value: Json, visited: set<string>, bound: set<string>): Result<Json>
    requires Refs(document) <= bound && Refs(value) <= bound
    decreases bound - visited
  {
    match HasRef(value)
    case None => Err(TypeError)
    case Some(false) => Ok(value)
    case Some(true) =>
      if !IsRef(value) then Err(TypeError)
      else if RefOf(value) in visited then Err(Cyclic)
      else
        var next := Hop(document, value);
        if next.Err? then next
        else
          OwnRef(value);
          TargetInside(document, Path(RefOf(value)));
          Chase(document, next.value, visited + {RefOf(value)}, bound)
  }

  method Deref(document: Json, start: Json) returns (r: Result<Json>)
    ensures r == Chase(document, start, {}, Refs(document) + Refs(start))
  {
    ghost var bound := Refs(document) + Refs(start);
    var value, visited := start, {};
    while HasRef(value) == Some(true)
      invariant Refs(value) <= bound
      invariant Chase(document, value, visited, bound) == Chase(document, start, {}, bound)
      decreases bound - visited
    {
      if !IsRef(value) { return Err(TypeError); }
      var ref := RefOf(value);
      if ref in visited { return Err(Cyclic); }
      OwnRef(value);
      visited := visited + {ref};
      var target := P.EvalPointer(document, Path(ref));
      if target.Err? { return Err(Unresolved(target.fault)); }
      TargetInside(document, Path(ref));
      value := target.value;
    }
    r := if HasRef(value) == None then Err(TypeError) else Ok(value);
  }

  // Chains

  /** The value after n hops; a value without reference stays. */
  function Chain(document: Json, value: Json, n: nat): Json {
    if n == 0 then value
    else
      var before := Chain(document, value, n - 1);
      if IsRef(before) && Hop(document, before).Ok? then Hop(document, before).value else before
  }

  /** A loaded document whose references lead to objects, and an object inside it. */
  ghost predicate Loaded(document: Json, value: Json) {
    && Inspect(document, document) && Inspect(document, value) && value.JObj? && Refs(value) <= Refs(document)
    && forall r :: r in Refs(document) && P.Pointer(document, Path(r)).Ok? ==> P.Pointer(document, Path(r)).value.JObj?
  }

  lemma HopStaysLoaded(document: Json, value: Json)
    requires Loaded(document, value) && HasRef(value) == Some(true)
    ensures IsRef(value) && RefOf(value) in Refs(document) && Hop(document, value).Ok?
    ensures Loaded(document, Hop(document, value).value)
  {
    OwnRef(value);
    TargetInside(document, Path(RefOf(value)));
  }

  lemma {:induction false} ChainLoaded(document: Json, value: Json, n: nat)
    requires Loaded(document, value)
    ensures Loaded(document, Chain(document, value, n))
  {
    hide Loaded, Hop;
    if n > 0 {
      ChainLoaded(document, value, n - 1);
      var before := Chain(document, value, n - 1);
      if HasRef(before) == Some(true) { HopStaysLoaded(document, before); }
    }
  }

  lemma {:induction false} ChainPlus(document: Json, value: Json, n: nat, m: nat)
    ensures Chain(document, value, n + m) == Chain(document, Chain(document, value, n), m)
  {
    hide Hop, IsRef, RefOf;
    if m > 0 { ChainPlus(document, value, n, m - 1); }
  }

  lemma NextHop(document: Json, value: Json)
    requires IsRef(value) && Hop(document, value).Ok?
    ensures Chain(document, value, 1) == Hop(document, value).value
  {
    assert Chain(document, value, 0) == value;
  }

  lemma SameHop(document: Json, a: Json, b: Json)
    requires IsRef(a) && IsRef(b) && RefOf(a) == RefOf(b)
    ensures Hop(document, a) == Hop(document, b)
  {
  }

  /** A chain that meets the same reference again after p hops repeats itself from then on. */
  lemma Repeats(document: Json, value: Json, p: nat, n: nat)
    requires IsRef(value) && IsRef(Chain(document, value, p)) && RefOf(Chain(document, value, p)) == RefOf(value)
    requires Hop(document, value).Ok? && n > 0
    ensures Chain(document, value, p + n) == Chain(document, value, n)
  {
    hide Chain, Hop, IsRef, RefOf;
    ChainPlus(document, value, p, n);
    ChainPlus(document, Chain(document, value, p), 1, n - 1);
    ChainPlus(document, value, 1, n - 1);
    SameHop(document, value, Chain(document, value, p));
    NextHop(document, value);
    NextHop(document, Chain(document, value, p));
  }

  /** The chain has a reference after each of the first n hops. */
  ghost predicate AllRefs(document: Json, value: Json, n: nat) {
    forall k :: 0 <= k <= n ==> IsRef(Chain(document, value, k))
  }

  lemma {:induction false} CycleNeverEnds(document: Json, value: Json, p: nat, n: nat)
    requires p > 0 && IsRef(value) && Hop(document, value).Ok?
    requires AllRefs(document, value, p)
    requires RefOf(Chain(document, value, p)) == RefOf(value)
    ensures IsRef(Chain(document, value, n))
    decreases n
  {
    hide Chain, Hop, IsRef;
    if n > p {
      Repeats(document, value, p, n - p);
      CycleNeverEnds(document, value, p, n - p);
    }
  }

  function Own(value: Json): set<string> {
    if IsRef(value) then {RefOf(value)} else {}
  }

  /** The references met in the first n hops. */
  function Met(document: Json, value: Json, n: nat): set<string> {
    if n == 0 then {} else Met(document, value, n - 1) + Own(Chain(document, value, n - 1))
  }

  lemma {:induction false} MetSource(document: Json, value: Json, n: nat, r: string) returns (k: nat)
    requires r in Met(document, value, n)
    ensures k < n && IsRef(Chain(document, value, k)) && RefOf(Chain(document, value, k)) == r
  {
    hide Chain, Hop, IsRef, RefOf;
    if r in Met(document, value, n - 1) {
      k := MetSource(document, value, n - 1, r);
    } else {
      k := n - 1;
    }
  }

  lemma LoadedRefs(document: Json, value: Json)
    requires Loaded(document, value)
    ensures Refs(value) <= Refs(document)
  {
  }

  lemma {:induction false} MetInside(document: Json, value: Json, n: nat)
    requires Loaded(document, value)
    ensures Met(document, value, n) <= Refs(document)
  {
    hide Loaded, Chain, Refs;
    if n > 0 {
      MetInside(document, value, n - 1);
      ChainLoaded(document, value, n - 1);
      LoadedRefs(document, Chain(document, value, n - 1));
      if IsRef(Chain(document, value, n - 1)) { OwnRef(Chain(document, value, n - 1)); }
    }
  }

  /** The chain still has a reference after every number of hops. */
  ghost predicate Endless(document: Json, value: Json) {
    forall n: nat :: IsRef(Chain(document, value, n))
  }

  lemma RefLater(document: Json, start: Json, k: nat, i: nat)
    requires IsRef(Chain(document, start, k + i))
    ensures IsRef(Chain(document, Chain(document, start, k), i))
  {
    ChainPlus(document, start, k, i);
  }

  lemma {:induction false} RefsLater(document: Json, start: Json, k: nat, p: nat)
    requires AllRefs(document, start, k + p)
    ensures AllRefs(document, Chain(document, start, k), p)
  {
    hide Chain, IsRef;
    if p > 0 { RefsLater(document, start, k, p - 1); }
    assert IsRef(Chain(document, start, k + p));
    RefLater(document, start, k, p);
  }

  lemma AllRefsAt(document: Json, start: Json, n: nat, m: nat)
    requires AllRefs(document, start, n) && m <= n
    ensures IsRef(Chain(document, start, m))
  {
  }

  lemma HopIsOk(document: Json, value: Json)
    requires Loaded(document, value) && IsRef(value)
    ensures Hop(document, value).Ok?
  {
    HopStaysLoaded(document, value);
  }

  lemma RefAlways(document: Json, start: Json, k: nat, n: nat, m: nat)
    requires Loaded(document, start) && k < n
    requires AllRefs(document, start, n) && IsRef(Chain(document, start, n)) && IsRef(Chain(document, start, k))
    requires RefOf(Chain(document, start, n)) == RefOf(Chain(document, start, k))
    ensures IsRef(Chain(document, start, m))
  {
    hide *;
    if m <= n {
      AllRefsAt(document, start, n, m);
    } else {
      var value := Chain(document, start, k);
      ChainLoaded(document, start, k);
      HopIsOk(document, value);
      RefsLater(document, start, k, n - k);
      ChainPlus(document, start, k, n - k);
      ChainPlus(document, start, k, m - k);
      CycleNeverEnds(document, value, n - k, m - k);
    }
  }

  lemma CycleIsEndless(document: Json, start: Json, k: nat, n: nat)
    requires Loaded(document, start) && k < n
    requires AllRefs(document, start, n) && IsRef(Chain(document, start, n)) && IsRef(Chain(document, start, k))
    requires RefOf(Chain(document, start, n)) == RefOf(Chain(document, start, k))
    ensures Endless(document, start)
  {
    hide Chain, IsRef, RefOf, Loaded, AllRefs;
    forall m: nat ensures IsRef(Chain(document, start, m)) { RefAlways(document, start, k, n, m); }
  }

  /** The chain ends after exactly m hops, at an object without $ref. */
  ghost predicate EndsAt(document: Json, start: Json, m: nat) {
    && Chain(document, start, m).JObj? && "$ref" !in Chain(document, start, m).fields
    && forall k :: 0 <= k < m ==> IsRef(Chain(document, start, k))
  }

  /** What a dereference from a loaded object gives: the end of its chain, or the cyclic error. */
  ghost predicate Dereferenced(document: Json, start: Json, r: Result<Json>) {
    if r.Ok? then
      exists m: nat :: m <= |Refs(document)| && r.value == Chain(document, start, m) && EndsAt(document, start, m)
    else (r.fault == Cyclic && Endless(document, start))
  }

  lemma ChaseUnfolds(document: Json, value: Json, visited: set<string>)
    requires Loaded(document, value)
    ensures Refs(value) <= Refs(document)
    ensures HasRef(value) == Some(false) ==> Chase(document, value, visited, Refs(document)) == Ok(value)
    ensures HasRef(value) == Some(true) && RefOf(value) in visited ==>
      Chase(document, value, visited, Refs(document)) == Err(Cyclic)
    ensures HasRef(value) == Some(true) && RefOf(value) !in visited ==>
      && Refs(Hop(document, value).value) <= Refs(document)
      && Chase(document, value, visited, Refs(document))
         == Chase(document, Hop(document, value).value, visited + {RefOf(value)}, Refs(document))
  {
    if HasRef(value) == Some(true) { HopStaysLoaded(document, value); }
  }

  lemma NextMet(document: Json, start: Json, n: nat)
    requires IsRef(Chain(document, start, n)) && Hop(document, Chain(document, start, n)).Ok?
    ensures Chain(document, start, n + 1) == Hop(document, Chain(document, start, n)).value
    ensures Met(document, start, n + 1) == Met(document, start, n) + {RefOf(Chain(document, start, n))}
  {
  }

  lemma MeetsAgain(document: Json, start: Json, n: nat)
    requires Loaded(document, start) && AllRefs(document, start, n)
    requires IsRef(Chain(document, start, n)) && RefOf(Chain(document, start, n)) in Met(document, start, n)
    ensures Dereferenced(document, start, Err(Cyclic))
  {
    hide Loaded, Chain, Met, RefOf, Endless, IsRef;
    var k := MetSource(document, start, n, RefOf(Chain(document, start, n)));
    CycleIsEndless(document, start, k, n);
  }

  lemma LoadedIsObject(document: Json, value: Json)
    requires Loaded(document, value)
    ensures value.JObj?
  {
  }

  lemma EndsHere(document: Json, start: Json, n: nat)
    requires Loaded(document, start) && n <= |Refs(document)| && HasRef(Chain(document, start, n)) == Some(false)
    requires forall k :: 0 <= k < n ==> IsRef(Chain(document, start, k))
    ensures Dereferenced(document, start, Ok(Chain(document, start, n)))
  {
    hide Loaded, Chain, IsRef;
    ChainLoaded(document, start, n);
    LoadedIsObject(document, Chain(document, start, n));
    assert EndsAt(document, start, n);
  }

  lemma LoadedHasRef(document: Json, value: Json)
    requires Loaded(document, value)
    ensures HasRef(value) == Some(true) || HasRef(value) == Some(false)
  {
  }

  lemma {:induction false} ChaseMeaning(document: Json, start: Json, n: nat)
    requires Loaded(document, start) && n == |Met(document, start, n)|
    requires forall k :: 0 <= k < n ==> IsRef(Chain(document, start, k))
    ensures Refs(Chain(document, start, n)) <= Refs(document)
    ensures Dereferenced(document, start,
                         Chase(document, Chain(document, start, n), Met(document, start, n), Refs(document)))
    decreases |Refs(document)| - |Met(document, start, n)|
  {
    hide Loaded, Chain, Chase, Met, Refs, Hop, RefOf, Dereferenced, IsRef, HasRef;
    var value := Chain(document, start, n);
    ChainLoaded(document, start, n);
    MetInside(document, start, n);
    SubsetSize(Met(document, start, n), Refs(document));
    ChaseUnfolds(document, value, Met(document, start, n));
    if HasRef(value) == Some(true) {
      HopStaysLoaded(document, value);
      if RefOf(value) in Met(document, start, n) {
        MeetsAgain(document, start, n);
      } else {
        NextMet(document, start, n);
        MetInside(document, start, n + 1);
        SubsetSize(Met(document, start, n + 1), Refs(document));
        ChaseMeaning(document, start, n + 1);
      }
    } else {
      LoadedHasRef(document, value);
      EndsHere(document, start, n);
    }
  }

  /** Dereferencing an object of a loaded document ends after at most as many hops as there are distinct
      $ref strings. It returns the object without $ref at the end of the chain, or raises the cyclic
      error, and this exactly when the chain never ends. */
  lemma DerefMeaning(document: Json, start: Json)
    requires Loaded(document, start)
    ensures var r := Chase(document, start, {}, Refs(document) + Refs(start));
            && Dereferenced(document, start, r)
            && (r == Err(Cyclic) <==> Endless(document, start))
            && (r.Ok? <==> !Endless(document, start))
  {
    assert Refs(document) + Refs(start) == Refs(document);
    ChaseMeaning(document, start, 0);
    var r := Chase(document, start, {}, Refs(document));
    if r.Ok? {
      var m: nat :| m <= |Refs(document)| && r.value == Chain(document, start, m) && EndsAt(document, start, m);
      assert !IsRef(Chain(document, start, m));
    }
  }
}
