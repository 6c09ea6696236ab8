/**
 * JSON documents and JSON Patch restricted to the operations a diff emits:
 * add, remove and replace (RFC 6902, sections 4.1 to 4.3).
 *
 * `Compare` is the diff, `ApplyPatch` its partner. Everything the realtime protocol and the
 * snapshot publisher need from the pair is `IsDiff`.
 */
module JsonPatch {
  import opened Wrappers

  datatype Json =
    | Null
    | Bool(b: bool)
    | Num(n: int)
    | Str(s: string)
    | Arr(elems: seq<Json>)
    | Obj(fields: map<string, Json>)

  /** One reference token of a JSON Pointer: an object member or an array index. */
  datatype Token = Name(name: string) | Idx(i: nat)

  type Path = seq<Token>

  datatype Op =
    | Add(path: Path, value: Json)
    | Remove(path: Path)
    | Replace(path: Path, value: Json)

  type Patch = seq<Op>

  /** What a conditional on a JSON value sees in the source language. */
  predicate Truthy(j: Json) {
    match j
    case Null => false
    case Bool(b) => b
    case Num(n) => n != 0
    case Str(s) => s != ""
    case _ => true
  }

  lemma FalsyValues(j: Json)
    ensures !Truthy(j) <==> j == Null || j == Bool(false) || j == Num(0) || j == Str("")
  {}

  // ---- Applying patches ----

  function ApplyOp(doc: Json, op: Op): Option<Json> {
    ApplyAt(doc, op, op.path)
  }

  /** Applies `op` to the node that `path` designates inside `doc`; None is a rejected operation. */
  function ApplyAt(doc: Json, op: Op, path: Path): Option<Json>
    decreases |path|
  {
    if path == [] then
      Some(if op.Remove? then Null else op.value)
    else if doc.Obj? && path[0].Name? then
      var m, k := doc.fields, path[0].name;
      if |path| == 1 && op.Add? then Some(Obj(m[k := op.value]))
      else if k !in m then None
      else if |path| == 1 && op.Remove? then Some(Obj(m - {k}))
      else
        var v :- ApplyAt(m[k], op, path[1..]);
        Some(Obj(m[k := v]))
    else if doc.Arr? && path[0].Idx? then
      var a, i := doc.elems, path[0].i;
      if |path| == 1 && op.Add? then
        if i <= |a| then Some(Arr(a[..i] + [op.value] + a[i..])) else None
      else if |a| <= i then None
      else if |path| == 1 && op.Remove? then Some(Arr(a[..i] + a[i + 1..]))
      else
        var v :- ApplyAt(a[i], op, path[1..]);
        Some(Arr(a[i := v]))
    else
      None
  }

  /** All operations in order; one failing operation rejects the whole patch. */
  function ApplyPatch(doc: Json, patch: Patch): Option<Json>
    decreases |patch|
  {
    if patch == [] then Some(doc)
    else
      var d :- ApplyOp(doc, patch[0]);
      ApplyPatch(d, patch[1..])
  }

  lemma {:induction false} ApplyPatchAppend(doc: Json, p: Patch, mid: Json, q: Patch)
    requires ApplyPatch(doc, p) == Some(mid)
    ensures ApplyPatch(doc, p + q) == ApplyPatch(mid, q)
    decreases |p|
  {
    if p == [] {
      assert p + q == q;
    } else {
      assert (p + q)[1..] == p[1..] + q;
      ApplyPatchAppend(ApplyOp(doc, p[0]).value, p[1..], mid, q);
    }
  }

  // ---- Lookup: what an operation does, seen from the outside ----

  /** The value at `path`, if there is one. */
  function Lookup(doc: Json, path: Path): Option<Json>
    decreases |path|
  {
    if path == [] then Some(doc)
    else if doc.Obj? && path[0].Name? && path[0].name in doc.fields then
      Lookup(doc.fields[path[0].name], path[1..])
    else if doc.Arr? && path[0].Idx? && path[0].i < |doc.elems| then
      Lookup(doc.elems[path[0].i], path[1..])
    else None
  }

  /** Neither path leads through the other, and they part ways at an object member or at an index. */
  predicate Apart(p: Path, q: Path) {
    p != [] && q != [] && (p[0] != q[0] || Apart(p[1..], q[1..]))
  }

  function Parent(path: Path): Path
    requires path != []
  {
    path[..|path| - 1]
  }

  function Final(path: Path): Token
    requires path != []
  {
    path[|path| - 1]
  }

  lemma ParentBelow(path: Path)
    requires |path| > 1
    ensures Parent(path) != [] && Parent(path)[0] == path[0] && Parent(path)[1..] == Parent(path[1..]) && Final(path[1..]) == Final(path)
  {}

  lemma ParentOfOne(path: Path)
    requires |path| == 1
    ensures Parent(path) == [] && [Final(path)] == path && path[1..] == []
  {}

  /** `path` ends at an element of an array, where Add and Remove move the later elements. */
  predicate EndsInArray(doc: Json, path: Path) {
    path != [] && var container := Lookup(doc, Parent(path));
    container.Some? && container.value.Arr?
  }

  lemma {:induction false} LookupAppend(doc: Json, p: Path, q: Path)
    ensures Lookup(doc, p + q) == match Lookup(doc, p) case None => None case Some(node) => Lookup(node, q)
    decreases |p|
  {
    if p == [] {
      assert p + q == q;
    } else {
      assert (p + q)[1..] == p[1..] + q;
      if doc.Obj? && p[0].Name? && p[0].name in doc.fields {
        LookupAppend(doc.fields[p[0].name], p[1..], q);
      } else if doc.Arr? && p[0].Idx? && p[0].i < |doc.elems| {
        LookupAppend(doc.elems[p[0].i], p[1..], q);
      }
    }
  }

  /** The member or element `t` of a container. */
  function ChildAt(doc: Json, t: Token): Option<Json> {
    if doc.Obj? && t.Name? && t.name in doc.fields then Some(doc.fields[t.name])
    else if doc.Arr? && t.Idx? && t.i < |doc.elems| then Some(doc.elems[t.i])
    else None
  }

  lemma LookupBelow(doc: Json, path: Path)
    requires path != []
    ensures Lookup(doc, path) == match ChildAt(doc, path[0]) case None => None case Some(child) => Lookup(child, path[1..])
  {}

  ghost function WithChild(doc: Json, t: Token, child: Json): Json {
    if doc.Obj? && t.Name? then Obj(doc.fields[t.name := child])
    else if doc.Arr? && t.Idx? && t.i < |doc.elems| then Arr(doc.elems[t.i := child])
    else doc
  }

  /** One level of an operation below the root: descend and put the edited child back. */
  lemma ApplyAtBelow(doc: Json, op: Op, path: Path)
    requires |path| > 1
    ensures ApplyAt(doc, op, path).Some? <==> ChildAt(doc, path[0]).Some? && ApplyAt(ChildAt(doc, path[0]).value, op, path[1..]).Some?
    ensures ApplyAt(doc, op, path).Some? ==>
      ApplyAt(doc, op, path).value == WithChild(doc, path[0], ApplyAt(ChildAt(doc, path[0]).value, op, path[1..]).value)
  {}

  lemma WithChildHas(doc: Json, t: Token, child: Json, other: Token)
    requires ChildAt(doc, t).Some?
    ensures ChildAt(WithChild(doc, t, child), other) == if other == t then Some(child) else ChildAt(doc, other)
  {}

  /** An operation is an edit of the one container its path ends in. */
  lemma {:induction false} ApplyIsLocal(doc: Json, op: Op, path: Path)
    requires path != []
    ensures var r, container := ApplyAt(doc, op, path), Lookup(doc, Parent(path));
      && (r.Some? <==> container.Some? && ApplyAt(container.value, op, [Final(path)]).Some?)
      && (r.Some? ==> Lookup(r.value, Parent(path)) == ApplyAt(container.value, op, [Final(path)]))
    decreases |path|
  {
    hide ApplyAt, Lookup, ChildAt, WithChild, Parent, Final;
    if |path| == 1 {
      ParentOfOne(path);
      LookupHere(doc);
      if ApplyAt(doc, op, path).Some? {
        LookupHere(ApplyAt(doc, op, path).value);
      }
    } else {
      ParentBelow(path);
      ApplyAtBelow(doc, op, path);
      LookupBelow(doc, Parent(path));
      if ChildAt(doc, path[0]).Some? {
        var child := ChildAt(doc, path[0]).value;
        ApplyIsLocal(child, op, path[1..]);
        if ApplyAt(child, op, path[1..]).Some? {
          WithChildHas(doc, path[0], ApplyAt(child, op, path[1..]).value, path[0]);
          LookupBelow(ApplyAt(doc, op, path).value, Parent(path));
        }
      }
    }
  }

  lemma LookupHere(doc: Json)
    ensures Lookup(doc, []) == Some(doc)
  {}

  /**
   * When an operation succeeds: below the root its container must exist; a member may be added
   * under any name and an element up to one place behind the last, everything else must be there.
   */
  lemma ApplySucceedsIff(doc: Json, op: Op, path: Path)
    ensures ApplyAt(doc, op, path).Some? <==>
      path == [] ||
      var container, last := Lookup(doc, Parent(path)), Final(path);
      && container.Some?
      && ((container.value.Obj? && last.Name? && (op.Add? || last.name in container.value.fields))
          || (container.value.Arr? && last.Idx? && last.i < |container.value.elems| + if op.Add? then 1 else 0))
  {
    if path != [] {
      ApplyIsLocal(doc, op, path);
      hide Lookup, Parent, Final;
      if Lookup(doc, Parent(path)).Some? {
        ApplyAtOne(Lookup(doc, Parent(path)).value, op, [Final(path)]);
      }
    }
  }

  /** What an operation makes of its container. */
  lemma ApplyAtOne(c: Json, op: Op, path: Path)
    requires |path| == 1
    ensures var r, t := ApplyAt(c, op, path), path[0];
      r == if c.Obj? && t.Name? then
        if op.Add? then Some(Obj(c.fields[t.name := op.value]))
        else if t.name !in c.fields then None
        else if op.Remove? then Some(Obj(c.fields - {t.name}))
        else Some(Obj(c.fields[t.name := op.value]))
      else if c.Arr? && t.Idx? then
        if op.Add? then if t.i <= |c.elems| then Some(Arr(c.elems[..t.i] + [op.value] + c.elems[t.i..])) else None
        else if |c.elems| <= t.i then None
        else if op.Remove? then Some(Arr(c.elems[..t.i] + c.elems[t.i + 1..]))
        else Some(Arr(c.elems[t.i := op.value]))
      else None
  {
    assert path[1..] == [];
  }

  /** Where the element at index `j` of the edited array stood before; only the added one is new. */
  function IndexBefore(op: Op, i: nat, j: nat): nat
    requires op.Add? ==> j != i
  {
    if op.Add? && j > i then j - 1 else if op.Remove? && j >= i then j + 1 else j
  }

  /**
   * Add and Remove at an array element move the later elements by one place, with all that is below
   * them, and Replace moves none.
   */
  lemma ApplyShiftsElements(doc: Json, op: Op, path: Path, j: nat, rest: Path)
    requires EndsInArray(doc, path) && Final(path).Idx? && ApplyAt(doc, op, path).Some?
    requires !op.Remove? ==> j != Final(path).i
    ensures var front, i := Parent(path), Final(path).i;
      Lookup(ApplyAt(doc, op, path).value, front + [Idx(j)] + rest) == Lookup(doc, front + [Idx(IndexBefore(op, i, j))] + rest)
  {
    hide ApplyAt, Lookup, Parent, Final;
    var front, i := Parent(path), Final(path).i;
    var after, k := ApplyAt(doc, op, path).value, IndexBefore(op, i, j);
    ApplyIsLocal(doc, op, path);
    var a := Lookup(doc, front).value;
    ApplyAtOne(a, op, [Final(path)]);
    var b := Lookup(after, front).value;
    assert front + [Idx(j)] + rest == front + ([Idx(j)] + rest) && front + [Idx(k)] + rest == front + ([Idx(k)] + rest);
    LookupAppend(after, front, [Idx(j)] + rest);
    LookupAppend(doc, front, [Idx(k)] + rest);
    LookupBelow(b, [Idx(j)] + rest);
    LookupBelow(a, [Idx(k)] + rest);
    assert ([Idx(j)] + rest)[1..] == rest && ([Idx(k)] + rest)[1..] == rest;
    ElementBefore(a.elems, op, i, j);
  }

  lemma ElementBefore(a: seq<Json>, op: Op, i: nat, j: nat)
    requires i < |a| + if op.Add? then 1 else 0
    requires !op.Remove? ==> j != i
    ensures var b := if op.Add? then a[..i] + [op.value] + a[i..] else if op.Remove? then a[..i] + a[i + 1..] else a[i := op.value];
      var k := IndexBefore(op, i, j);
      (j < |b| <==> k < |a|) && (j < |b| ==> b[j] == a[k])
  {}

  /** `other` leads somewhere else than `path`, and not into an array whose elements move. */
  predicate Spared(doc: Json, op: Op, path: Path, other: Path) {
    path != [] && (Apart(Parent(path), other) || (Apart(path, other) && (op.Replace? || !EndsInArray(doc, path))))
  }

  lemma SparedBelow(doc: Json, child: Json, op: Op, path: Path, other: Path)
    requires |path| > 1 && ChildAt(doc, path[0]) == Some(child)
    ensures Spared(doc, op, path, other) <==> other != [] && (path[0] != other[0] || Spared(child, op, path[1..], other[1..]))
  {
    hide Apart, EndsInArray, ChildAt, Parent;
    EndsBelow(doc, child, path);
    ParentBelow(path);
    ApartBelow(path, other);
    ApartBelow(Parent(path), other);
  }

  /** What one operation at `path` leaves at `path` itself and at another path. */
  ghost predicate Leaves(doc: Json, op: Op, path: Path, other: Path) {
    var r := ApplyAt(doc, op, path);
    && (op.Remove? && path == [] ==> r == Some(Null))
    && (op.Replace? ==> (r.Some? <==> Lookup(doc, path).Some?))
    && (r.Some? && !op.Remove? ==> Lookup(r.value, path) == Some(op.value))
    && (r.Some? && op.Remove? && path != [] && !EndsInArray(doc, path) ==> Lookup(r.value, path) == None)
    && (r.Some? && Spared(doc, op, path, other) ==> Lookup(r.value, other) == Lookup(doc, other))
  }

  lemma LeavesOne(doc: Json, op: Op, path: Path, other: Path)
    requires |path| == 1
    ensures Leaves(doc, op, path, other)
  {
    ParentOfOne(path);
    assert other != [] ==> !Apart(path[1..], other[1..]);
    assert Lookup(doc, []) == Some(doc);
  }

  lemma LeavesBelow(doc: Json, child: Json, op: Op, path: Path, other: Path)
    requires |path| > 1 && ChildAt(doc, path[0]) == Some(child)
    requires Leaves(child, op, path[1..], if other == [] then [] else other[1..])
    ensures Leaves(doc, op, path, other)
  {
    hide ApplyAt, Lookup, Spared, EndsInArray, ChildAt, WithChild;
    ApplyAtBelow(doc, op, path);
    LookupBelow(doc, path);
    EndsBelow(doc, child, path);
    SparedBelow(doc, child, op, path, other);
    if ApplyAt(doc, op, path).Some? {
      var after, inner := ApplyAt(doc, op, path).value, ApplyAt(child, op, path[1..]).value;
      LookupBelow(after, path);
      WithChildHas(doc, path[0], inner, path[0]);
      if other != [] {
        LookupBelow(doc, other);
        LookupBelow(after, other);
        WithChildHas(doc, path[0], inner, other[0]);
      }
    }
  }

  lemma EndsBelow(doc: Json, child: Json, path: Path)
    requires |path| > 1 && ChildAt(doc, path[0]) == Some(child)
    ensures EndsInArray(doc, path) <==> EndsInArray(child, path[1..])
  {
    hide Lookup, ChildAt, Parent;
    ParentBelow(path);
    LookupBelow(doc, Parent(path));
  }

  lemma ApartBelow(p: Path, q: Path)
    requires p != []
    ensures Apart(p, q) <==> q != [] && (p[0] != q[0] || Apart(p[1..], q[1..]))
  {}

  /**
   * Replace needs an existing target; Add and Replace leave their value at the path; Remove leaves
   * nothing at a member and null at the top; paths that lead somewhere else see no difference.
   */
  lemma {:induction false} ApplySpec(doc: Json, op: Op, path: Path, other: Path)
    ensures var r := ApplyAt(doc, op, path);
      && (op.Remove? && path == [] ==> r == Some(Null))
      && (op.Replace? ==> (r.Some? <==> Lookup(doc, path).Some?))
      && (r.Some? && !op.Remove? ==> Lookup(r.value, path) == Some(op.value))
      && (r.Some? && op.Remove? && path != [] && !EndsInArray(doc, path) ==> Lookup(r.value, path) == None)
      && (r.Some? && Spared(doc, op, path, other) ==> Lookup(r.value, other) == Lookup(doc, other))
    decreases |path|
  {
    if path == [] {
    } else {
      hide ApplyAt, Lookup, Spared, EndsInArray, ChildAt;
      if |path| == 1 {
        LeavesOne(doc, op, path, other);
      } else if ChildAt(doc, path[0]).Some? {
        var child := ChildAt(doc, path[0]).value;
        ApplySpec(child, op, path[1..], if other == [] then [] else other[1..]);
        LeavesBelow(doc, child, op, path, other);
      } else {
        ApplyAtBelow(doc, op, path);
        LookupBelow(doc, path);
      }
    }
  }

  // ---- Diffing ----

  /** `patch` leads from `prev` to `next` and is empty exactly when there is nothing to change. */
  ghost predicate IsDiff(prev: Json, next: Json, patch: Patch) {
    && ApplyPatch(prev, patch) == Some(next)
    && (patch == [] <==> prev == next)
  }

  predicate SameContainer(a: Json, b: Json) {
    (a.Obj? && b.Obj?) || (a.Arr? && b.Arr?)
  }

  /** Re-roots an operation below the member or element `t`. */
  function Under(t: Token, op: Op): (r: Op) {
    match op
    case Add(p, v) => Add([t] + p, v)
    case Remove(p) => Remove([t] + p)
    case Replace(p, v) => Replace([t] + p, v)
  }

  function UnderAll(t: Token, patch: Patch): (r: Patch)
    ensures |r| == |patch|
    ensures forall i :: 0 <= i < |r| ==> r[i] == Under(t, patch[i])
  {
    seq(|patch|, i requires 0 <= i < |patch| => Under(t, patch[i]))
  }

  ghost predicate BelowRoot(patch: Patch) {
    forall i :: 0 <= i < |patch| ==> patch[i].path != []
  }

  lemma ApplyAtSameKind(doc: Json, a: Op, b: Op, path: Path)
    requires a.Add? == b.Add? && a.Remove? == b.Remove?
    requires !a.Remove? ==> a.value == b.value
    ensures ApplyAt(doc, a, path) == ApplyAt(doc, b, path)
    decreases |path|
  {
  }

  lemma {:induction false} ApplyUnderName(m: map<string, Json>, k: string, patch: Patch, v: Json)
    requires k in m && BelowRoot(patch) && ApplyPatch(m[k], patch) == Some(v)
    ensures ApplyPatch(Obj(m), UnderAll(Name(k), patch)) == Some(Obj(m[k := v]))
    decreases |patch|
  {
    if patch == [] {
      assert m[k := v] == m;
    } else {
      var op, w := patch[0], ApplyOp(m[k], patch[0]).value;
      var lifted := UnderAll(Name(k), patch);
      assert Under(Name(k), op).path[1..] == op.path;
      ApplyAtSameKind(m[k], Under(Name(k), op), op, op.path);
      assert lifted[1..] == UnderAll(Name(k), patch[1..]);
      ApplyUnderName(m[k := w], k, patch[1..], v);
      assert m[k := w][k := v] == m[k := v];
    }
  }

  lemma {:induction false} ApplyUnderIdx(a: seq<Json>, i: nat, patch: Patch, v: Json)
    requires i < |a| && BelowRoot(patch) && ApplyPatch(a[i], patch) == Some(v)
    ensures ApplyPatch(Arr(a), UnderAll(Idx(i), patch)) == Some(Arr(a[i := v]))
    decreases |patch|
  {
    if patch == [] {
      assert a[i := v] == a;
    } else {
      var op, w := patch[0], ApplyOp(a[i], patch[0]).value;
      var lifted := UnderAll(Idx(i), patch);
      assert Under(Idx(i), op).path[1..] == op.path;
      ApplyAtSameKind(a[i], Under(Idx(i), op), op, op.path);
      assert lifted[1..] == UnderAll(Idx(i), patch[1..]);
      ApplyUnderIdx(a[i := w], i, patch[1..], v);
      assert a[i := w][i := v] == a[i := v];
    }
  }

  /** Diff of two containers of the same kind: recursive for shared members, then additions. */
  method Compare(prev: Json, next: Json) returns (patch: Patch)
    requires SameContainer(prev, next)
    ensures IsDiff(prev, next, patch)
    ensures BelowRoot(patch)
    decreases prev, 2
  {
    if prev.Obj? {
      patch := CompareObjects(prev.fields, next.fields);
    } else {
      patch := CompareArrays(prev.elems, next.elems);
    }
  }

  /** The operations for one member or element that exists on both sides. */
  method CompareChild(ghost base: Json, t: Token, prev: Json, next: Json) returns (patch: Patch)
    requires ChildAt(base, t) == Some(prev)
    ensures BelowRoot(patch)
    ensures patch == [] <==> prev == next
    ensures ApplyPatch(base, patch) == Some(WithChild(base, t, next))
    decreases prev, 3
  {
    if SameContainer(prev, next) {
      patch := Compare(prev, next);
      if base.Obj? {
        ApplyUnderName(base.fields, t.name, patch, next);
      } else {
        ApplyUnderIdx(base.elems, t.i, patch, next);
      }
      patch := UnderAll(t, patch);
    } else if prev != next {
      patch := [Replace([t], next)];
      assert patch[1..] == [] && [t][1..] == [];
      assert ApplyAt(prev, patch[0], []) == Some(next);
    } else {
      patch := [];
      assert base == WithChild(base, t, next);
    }
  }

  /** `m` after the members outside `todo` have been brought to their state in `n`. */
  ghost function Halfway(m: map<string, Json>, n: map<string, Json>, todo: set<string>): map<string, Json> {
    map k | k in m && (k in todo || k in n) :: if k in todo then m[k] else n[k]
  }

  /** The members outside `todo` are brought over by `patch`, which is empty if there was nothing to do. */
  ghost predicate BroughtOver(m: map<string, Json>, n: map<string, Json>, todo: set<string>, patch: Patch) {
    && BelowRoot(patch)
    && ApplyPatch(Obj(m), patch) == Some(Obj(Halfway(m, n, todo)))
    && (patch == [] <==> forall k :: k in m && k !in todo ==> k in n && m[k] == n[k])
  }

  lemma BringOver(m: map<string, Json>, n: map<string, Json>, todo: set<string>, patch: Patch, k: string, ops: Patch)
    requires todo <= m.Keys && k in todo && BroughtOver(m, n, todo, patch) && BelowRoot(ops)
    requires ops == [] <==> k in n && m[k] == n[k]
    requires ApplyPatch(Obj(Halfway(m, n, todo)), ops) == Some(Obj(Halfway(m, n, todo - {k})))
    ensures BroughtOver(m, n, todo - {k}, patch + ops)
  {
    hide ApplyPatch, Halfway;
    ApplyPatchAppend(Obj(m), patch, Obj(Halfway(m, n, todo)), ops);
  }

  lemma HalfwayStep(m: map<string, Json>, n: map<string, Json>, todo: set<string>, k: string)
    requires todo <= m.Keys && k in todo
    ensures k in Halfway(m, n, todo) && Halfway(m, n, todo)[k] == m[k]
    ensures Halfway(m, n, todo - {k}) ==
      if k in n then Halfway(m, n, todo)[k := n[k]] else Halfway(m, n, todo) - {k}
  {}

  lemma NothingBroughtOver(m: map<string, Json>, n: map<string, Json>)
    ensures BroughtOver(m, n, m.Keys, [])
  {
    assert Halfway(m, n, m.Keys) == m;
  }

  lemma RemoveMember(m: map<string, Json>, k: string)
    requires k in m
    ensures ApplyPatch(Obj(m), [Remove([Name(k)])]) == Some(Obj(m - {k}))
  {
    var ops := [Remove([Name(k)])];
    assert ops[1..] == [];
  }

  method CompareObjects(m: map<string, Json>, n: map<string, Json>) returns (patch: Patch)
    ensures IsDiff(Obj(m), Obj(n), patch)
    ensures BelowRoot(patch)
    decreases Obj(m), 1
  {
    hide Halfway, ApplyPatch, BelowRoot;
    patch := [];
    var todo := m.Keys;
    NothingBroughtOver(m, n);
    while todo != {}
      invariant todo <= m.Keys
      invariant BroughtOver(m, n, todo, patch)
      decreases |todo|
    {
      hide BroughtOver;
      var k :| k in todo;
      ghost var cur := Halfway(m, n, todo);
      HalfwayStep(m, n, todo, k);
      var ops: Patch;
      if k in n {
        ops := CompareChild(Obj(cur), Name(k), m[k], n[k]);
      } else {
        ops := [Remove([Name(k)])];
        RemoveMember(cur, k);
        OneBelowRoot(ops);
      }
      BringOver(m, n, todo, patch, k, ops);
      patch, todo := patch + ops, todo - {k};
    }
    patch := AddMissing(m, n, patch);
  }

  lemma OneBelowRoot(ops: Patch)
    requires |ops| == 1 && ops[0].path != []
    ensures BelowRoot(ops)
  {}

  method AddMissing(m: map<string, Json>, n: map<string, Json>, patch0: Patch) returns (patch: Patch)
    requires BelowRoot(patch0)
    requires ApplyPatch(Obj(m), patch0) == Some(Obj(Halfway(m, n, {})))
    requires patch0 == [] <==> forall k :: k in m ==> k in n && m[k] == n[k]
    ensures IsDiff(Obj(m), Obj(n), patch)
    ensures BelowRoot(patch)
    decreases Obj(m), 0
  {
    patch := patch0;
    ghost var cur := Halfway(m, n, {});
    var todo := set k | k in n && k !in m;
    while todo != {}
      invariant todo <= n.Keys - m.Keys
      invariant BelowRoot(patch)
      invariant ApplyPatch(Obj(m), patch) == Some(Obj(cur))
      invariant cur.Keys == n.Keys - todo
      invariant forall k :: k in cur ==> cur[k] == n[k]
      invariant patch == [] ==> cur == m
      invariant patch != [] ==> m != n
      decreases |todo|
    {
      var k :| k in todo;
      var ops := [Add([Name(k)], n[k])];
      assert ops[1..] == [];
      ApplyPatchAppend(Obj(m), patch, Obj(cur), ops);
      cur := cur[k := n[k]];
      patch, todo := patch + ops, todo - {k};
    }
    assert cur == n;
  }

  /** `a` after the elements from index `t` on have been brought to their state in `b`. */
  ghost function Mixed(a: seq<Json>, b: seq<Json>, t: nat): seq<Json>
    requires t <= |a|
  {
    a[..t] + if |b| <= t then [] else b[t..if |a| <= |b| then |a| else |b|]
  }

  /** The elements of `a` from index `t` on are also in `b`. */
  ghost predicate SameFrom(a: seq<Json>, b: seq<Json>, t: nat)
    requires t <= |a|
  {
    t == |a| || (|a| <= |b| && a[t..] == b[t..|a|])
  }

  lemma SameFromStep(a: seq<Json>, b: seq<Json>, t: nat)
    requires t < |a|
    ensures SameFrom(a, b, t) <==> t < |b| && a[t] == b[t] && SameFrom(a, b, t + 1)
  {
    assert a[t..] == [a[t]] + a[t + 1..];
    if |a| <= |b| {
      assert b[t..|a|] == [b[t]] + b[t + 1..|a|];
    }
  }

  /** The elements from index `t` on are brought over by `patch`, which is empty if there was nothing to do. */
  ghost predicate BroughtOverFrom(a: seq<Json>, b: seq<Json>, t: nat, patch: Patch) {
    && t <= |a| && BelowRoot(patch)
    && ApplyPatch(Arr(a), patch) == Some(Arr(Mixed(a, b, t)))
    && (patch == [] <==> SameFrom(a, b, t))
  }

  lemma BringElementOver(a: seq<Json>, b: seq<Json>, t: nat, patch: Patch, ops: Patch)
    requires t < |a| && BroughtOverFrom(a, b, t + 1, patch) && BelowRoot(ops)
    requires ops == [] <==> t < |b| && a[t] == b[t]
    requires ApplyPatch(Arr(Mixed(a, b, t + 1)), ops) == Some(Arr(Mixed(a, b, t)))
    ensures BroughtOverFrom(a, b, t, patch + ops)
  {
    hide ApplyPatch, Mixed, SameFrom;
    ApplyPatchAppend(Arr(a), patch, Arr(Mixed(a, b, t + 1)), ops);
    SameFromStep(a, b, t);
  }

  lemma MixedStep(a: seq<Json>, b: seq<Json>, t: nat)
    requires t < |a|
    ensures var cur := Mixed(a, b, t + 1);
      && t < |cur| && cur[t] == a[t]
      && Mixed(a, b, t) == if t < |b| then cur[t := b[t]] else cur[..t] + cur[t + 1..]
  {}

  lemma NothingBroughtOverFrom(a: seq<Json>, b: seq<Json>)
    ensures BroughtOverFrom(a, b, |a|, [])
  {
    assert Mixed(a, b, |a|) == a;
  }

  lemma RemoveElement(a: seq<Json>, t: nat)
    requires t < |a|
    ensures ApplyPatch(Arr(a), [Remove([Idx(t)])]) == Some(Arr(a[..t] + a[t + 1..]))
  {
    var ops := [Remove([Idx(t)])];
    assert ops[1..] == [];
  }

  method CompareArrays(a: seq<Json>, b: seq<Json>) returns (patch: Patch)
    ensures IsDiff(Arr(a), Arr(b), patch)
    ensures BelowRoot(patch)
    decreases Arr(a), 1
  {
    hide ApplyPatch, Mixed, SameFrom, BelowRoot;
    patch := [];
    var t := |a|;
    NothingBroughtOverFrom(a, b);
    while t > 0
      invariant 0 <= t <= |a|
      invariant BroughtOverFrom(a, b, t, patch)
    {
      hide BroughtOverFrom;
      t := t - 1;
      ghost var cur := Mixed(a, b, t + 1);
      MixedStep(a, b, t);
      var ops: Patch;
      if t < |b| {
        assert a[t] in a && a[t] < Arr(a);
        ops := CompareChild(Arr(cur), Idx(t), a[t], b[t]);
      } else {
        ops := [Remove([Idx(t)])];
        RemoveElement(cur, t);
        OneBelowRoot(ops);
      }
      BringElementOver(a, b, t, patch, ops);
      patch := patch + ops;
    }
    patch := AppendMissing(a, b, patch);
  }

  method AppendMissing(a: seq<Json>, b: seq<Json>, patch0: Patch) returns (patch: Patch)
    requires BelowRoot(patch0)
    requires ApplyPatch(Arr(a), patch0) == Some(Arr(Mixed(a, b, 0)))
    requires patch0 == [] <==> SameFrom(a, b, 0)
    ensures IsDiff(Arr(a), Arr(b), patch)
    ensures BelowRoot(patch)
    decreases Arr(a), 0
  {
    hide ApplyPatch, BelowRoot, Mixed;
    patch := patch0;
    MixedAtEnd(a, b);
    var t := |a|;
    while t < |b|
      invariant |a| <= t && (|a| <= |b| ==> t <= |b|)
      invariant BelowRoot(patch)
      invariant ApplyPatch(Arr(a), patch) == Some(Arr(if t <= |b| then b[..t] else b))
      invariant t == |a| ==> patch == patch0
      invariant t > |a| ==> patch != []
    {
      AppendOne(a, b, t, patch);
      patch, t := patch + [Add([Idx(t)], b[t])], t + 1;
    }
    assert |a| <= |b| ==> b[..|b|] == b;
    SameFromStart(a, b);
  }

  lemma MixedAtEnd(a: seq<Json>, b: seq<Json>)
    ensures Mixed(a, b, 0) == if |b| <= |a| then b else b[..|a|]
  {
    assert b[0..] == b;
  }

  lemma SameFromStart(a: seq<Json>, b: seq<Json>)
    ensures |b| <= |a| ==> (SameFrom(a, b, 0) <==> a == b)
    ensures |a| < |b| ==> a != b
  {
    assert a[0..] == a;
    assert |a| <= |b| ==> b[0..|a|] == b[..|a|];
  }

  lemma AppendOne(a: seq<Json>, b: seq<Json>, t: nat, patch: Patch)
    requires t < |b| && BelowRoot(patch) && ApplyPatch(Arr(a), patch) == Some(Arr(b[..t]))
    ensures var more := patch + [Add([Idx(t)], b[t])];
      BelowRoot(more) && ApplyPatch(Arr(a), more) == Some(Arr(b[..t + 1]))
  {
    hide ApplyPatch;
    ApplyAppendElem(b, t);
    ApplyPatchAppend(Arr(a), patch, Arr(b[..t]), [Add([Idx(t)], b[t])]);
  }

  lemma ApplyAppendElem(b: seq<Json>, t: nat)
    requires t < |b|
    ensures ApplyPatch(Arr(b[..t]), [Add([Idx(t)], b[t])]) == Some(Arr(b[..t + 1]))
  {
    var ops := [Add([Idx(t)], b[t])];
    assert ops[1..] == [];
    assert b[..t][..t] + [b[t]] + b[..t][t..] == b[..t + 1];
  }
}
