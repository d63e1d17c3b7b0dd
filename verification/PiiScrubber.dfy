/** Masking of personal data in a payload, field path by field path. */
module PiiScrubber {
  import opened Wrappers
  import opened JsonTree
  import Strings

  // ---------- one field ----------

  /** Walks the path; the last key is overwritten if it is there. */
  function MaskAt(t: Json, path: Path, mask: Json): Json
    decreases |path|
  {
    if path == [] || !t.Node? || path[0] !in t.kids then t
    else if |path| == 1 then t.(kids := t.kids[path[0] := mask])
    else t.(kids := t.kids[path[0] := MaskAt(t.kids[path[0]], path[1..], mask)])
  }

  function MaskAll(t: Json, paths: seq<Path>, mask: Json): Json {
    if paths == [] then t else MaskAt(MaskAll(t, paths[..|paths| - 1], mask), paths[|paths| - 1], mask)
  }

  function PathsOf(fields: seq<string>): (paths: seq<Path>)
    ensures |paths| == |fields| && forall i | 0 <= i < |paths| :: paths[i] != []
  {
    seq(|fields|, i requires 0 <= i < |fields| => Strings.Split(fields[i], '.'))
  }

  function Scrub(payload: Json, fields: seq<string>, mask: string): Json {
    MaskAll(payload, PathsOf(fields), Str(mask))
  }

  /** Puts a changed node back under the nodes the walk came through. */
  function Rebuild(spine: seq<Json>, keys: Path, t: Json): Json
    requires |spine| == |keys| && forall n <- spine :: n.Node?
  {
    if spine == [] then t
    else
      var last := |spine| - 1;
      Rebuild(spine[..last], keys[..last], spine[last].(kids := spine[last].kids[keys[last] := t]))
  }

  /** The walk of one field: down to the parent of the last key, assignment, and the path back up. */
  method MaskField(clone: Json, parts: Path, mask: string) returns (result: Json)
    requires parts != []
    ensures result == MaskAt(clone, parts, Str(mask))
  {
    var obj := Some(clone);
    var spine: seq<Json> := [];
    var i := 0;
    while i < |parts| - 1 && obj.Some?
      invariant 0 <= i < |parts| && |spine| == i && (forall n <- spine :: n.Node?)
      invariant obj.Some? ==>
                  && MaskAt(clone, parts, Str(mask)) == Rebuild(spine, parts[..i], MaskAt(obj.value, parts[i..], Str(mask)))
                  && clone == Rebuild(spine, parts[..i], obj.value)
      invariant obj.None? ==> MaskAt(clone, parts, Str(mask)) == clone
      decreases |parts| - i, obj.Some?
    {
      var t := obj.value;
      if t.Node? && parts[i] in t.kids {
        StepDown(spine, parts, i, t, Str(mask));
        spine := spine + [t];
        obj := Some(t.kids[parts[i]]);
        i := i + 1;
      } else {
        obj := None;
      }
    }
    if obj.None? {
      return clone;
    }
    var t := obj.value;
    var last := parts[|parts| - 1];
    if !t.Node? || last !in t.kids {
      return clone;
    }
    result := t.(kids := t.kids[last := Str(mask)]);
    ghost var goal := MaskAt(clone, parts, Str(mask));
    while i > 0
      invariant 0 <= i < |parts| && |spine| == i && (forall n <- spine :: n.Node?)
      invariant goal == Rebuild(spine, parts[..i], result)
    {
      var parent := spine[i - 1];
      assert parent in spine;
      assert parts[..i][..i - 1] == parts[..i - 1];
      result := parent.(kids := parent.kids[parts[i - 1] := result]);
      spine := spine[..i - 1];
      i := i - 1;
    }
  }

  lemma StepDown(spine: seq<Json>, parts: Path, i: nat, t: Json, mask: Json)
    requires i + 1 < |parts| && |spine| == i && (forall n <- spine :: n.Node?)
    requires t.Node? && parts[i] in t.kids
    ensures forall n <- spine + [t] :: n.Node?
    ensures var child := t.kids[parts[i]];
            && Rebuild(spine, parts[..i], MaskAt(t, parts[i..], mask))
               == Rebuild(spine + [t], parts[..i + 1], MaskAt(child, parts[i + 1..], mask))
            && Rebuild(spine, parts[..i], t) == Rebuild(spine + [t], parts[..i + 1], child)
  {
    var down := spine + [t];
    assert down[..i] == spine && parts[..i + 1][..i] == parts[..i];
    assert parts[i..][1..] == parts[i + 1..];
    assert t.kids[parts[i] := t.kids[parts[i]]] == t.kids;
  }

  /** Some field is the path's keys joined by dots. */
  predicate Names(fields: seq<string>, p: Path) {
    p != [] && Strings.Free(p, '.') && Strings.Joined(p, '.') in fields
  }

  /**
   The loop over fields. A position whose keys, joined by dots, are a listed field holds the mask afterwards if it was
   there and no field is listed above it; a position with no field listed at or above it keeps its shape.
   */
  method ScrubPayload(payload: Json, fields: seq<string>, mask: string) returns (clone: Json)
    ensures clone == Scrub(payload, fields, mask)
    ensures forall q: Path | q != [] && Strings.Free(q, '.') && Strings.Joined(q, '.') in fields && Lookup(payload, q).Some? ::
              (forall n | 0 < n < |q| :: !Names(fields, q[..n])) ==> Lookup(clone, q) == Some(Str(mask))
    ensures forall q: Path | Lookup(payload, q).Some? ::
              (forall n | 0 < n <= |q| :: !Names(fields, q[..n])) ==>
                Lookup(clone, q).Some? && SameShape(Lookup(payload, q).value, Lookup(clone, q).value)
  {
    clone := payload;
    ghost var paths := PathsOf(fields);
    for k := 0 to |fields|
      invariant clone == MaskAll(payload, paths[..k], Str(mask))
    {
      var parts := Strings.Split(fields[k], '.');
      assert paths[..k + 1][..k] == paths[..k];
      clone := MaskField(clone, parts, mask);
    }
    assert paths[..|fields|] == paths;
    forall q: Path
      ensures q != [] && Strings.Free(q, '.') && Strings.Joined(q, '.') in fields ==> Names(fields, q)
    {
    }
    forall q: Path | Lookup(payload, q).Some?
      ensures (forall n | 0 < n < |q| :: !Names(fields, q[..n])) && Names(fields, q) ==> Lookup(clone, q) == Some(Str(mask))
      ensures (forall n | 0 < n <= |q| :: !Names(fields, q[..n])) ==>
                Lookup(clone, q).Some? && SameShape(Lookup(payload, q).value, Lookup(clone, q).value)
    {
      ScrubPositions(payload, fields, mask, q);
    }
  }

  // ---------- all fields at once ----------

  /** What the paths say about the child under a key. */
  function Under(paths: set<Path>, key: string): set<Path> {
    set p | p in paths && |p| > 1 && p[0] == key :: p[1..]
  }

  /** The result by position: a listed child is masked, any other is scrubbed by the paths that lead through it. */
  function ScrubSet(t: Json, paths: set<Path>, mask: Json): Json
    decreases t
  {
    if !t.Node? then t
    else t.(kids := map k | k in t.kids :: if [k] in paths then mask else ScrubSet(t.kids[k], Under(paths, k), mask))
  }

  lemma UnderAdd(paths: set<Path>, p: Path, key: string)
    requires p != []
    ensures Under(paths + {p}, key) == if |p| > 1 && p[0] == key then Under(paths, key) + {p[1..]} else Under(paths, key)
  {
    var more := Under(paths + {p}, key);
    forall q | q in more
      ensures q in Under(paths, key) || (|p| > 1 && p[0] == key && q == p[1..])
    {
      var r :| r in paths + {p} && |r| > 1 && r[0] == key && q == r[1..];
    }
    forall q | q in Under(paths, key)
      ensures q in more
    {
      var r :| r in paths && |r| > 1 && r[0] == key && q == r[1..];
      assert r in paths + {p};
    }
    if |p| > 1 && p[0] == key {
      assert p in paths + {p};
    }
  }

  /** Masking one more path after the others is scrubbing by the larger set. */
  lemma {:induction false} MaskAfterSet(t: Json, paths: set<Path>, p: Path, mask: Json)
    requires p != [] && !mask.Node?
    ensures MaskAt(ScrubSet(t, paths, mask), p, mask) == ScrubSet(t, paths + {p}, mask)
    decreases |p|
  {
    if t.Node? {
      var key := p[0];
      var left, right := MaskAt(ScrubSet(t, paths, mask), p, mask), ScrubSet(t, paths + {p}, mask);
      forall k | k in t.kids
        ensures left.kids[k] == right.kids[k]
      {
        UnderAdd(paths, p, k);
        assert [k] in paths + {p} <==> [k] in paths || (|p| == 1 && k == key) by {
          assert p == [k] <==> |p| == 1 && p[0] == k;
        }
        if k == key && |p| > 1 {
          if [k] in paths {
            assert MaskAt(mask, p[1..], mask) == mask;
          } else {
            MaskAfterSet(t.kids[k], Under(paths, k), p[1..], mask);
          }
          assert left.kids[k] == MaskAt(ScrubSet(t, paths, mask).kids[k], p[1..], mask);
        } else if k == key {
          assert left.kids[k] == mask;
        } else {
          assert left.kids[k] == ScrubSet(t, paths, mask).kids[k];
        }
      }
      assert left.kids == right.kids;
    }
  }

  lemma {:induction false} ScrubNothing(t: Json, mask: Json)
    ensures ScrubSet(t, {}, mask) == t
    decreases t
  {
    if t.Node? {
      forall k | k in t.kids
        ensures ScrubSet(t, {}, mask).kids[k] == t.kids[k]
      {
        assert Under({}, k) == {};
        ScrubNothing(t.kids[k], mask);
      }
      assert ScrubSet(t, {}, mask).kids == t.kids;
    }
  }

  function SetOf(paths: seq<Path>): set<Path> {
    set p | p in paths
  }

  /** The sequence of in-place assignments computes the position-wise result of the set of paths. */
  lemma {:induction false} MaskAllIsScrubSet(t: Json, paths: seq<Path>, mask: Json)
    requires (forall i | 0 <= i < |paths| :: paths[i] != []) && !mask.Node?
    ensures MaskAll(t, paths, mask) == ScrubSet(t, SetOf(paths), mask)
  {
    if paths == [] {
      assert SetOf(paths) == {};
      ScrubNothing(t, mask);
    } else {
      var front, last := paths[..|paths| - 1], paths[|paths| - 1];
      assert last in paths;
      MaskAllIsScrubSet(t, front, mask);
      assert SetOf(paths) == SetOf(front) + {last};
      MaskAfterSet(t, SetOf(front), last, mask);
    }
  }

  /** Only the set of fields counts: any reordering or repetition gives the same tree. */
  lemma OrderAndRepetitionIrrelevant(t: Json, fields: seq<string>, fields': seq<string>, mask: string)
    requires SetOf(PathsOf(fields)) == SetOf(PathsOf(fields'))
    ensures Scrub(t, fields, mask) == Scrub(t, fields', mask)
  {
    MaskAllIsScrubSet(t, PathsOf(fields), Str(mask));
    MaskAllIsScrubSet(t, PathsOf(fields'), Str(mask));
  }

  lemma {:induction false} ScrubSetIdempotent(t: Json, paths: set<Path>, mask: Json)
    requires !mask.Node?
    ensures ScrubSet(ScrubSet(t, paths, mask), paths, mask) == ScrubSet(t, paths, mask)
    decreases t
  {
    if t.Node? {
      var once := ScrubSet(t, paths, mask);
      forall k | k in t.kids
        ensures ScrubSet(once, paths, mask).kids[k] == once.kids[k]
      {
        if [k] !in paths {
          ScrubSetIdempotent(t.kids[k], Under(paths, k), mask);
        }
      }
      assert ScrubSet(once, paths, mask).kids == once.kids;
    }
  }

  /** Scrubbing when the event is accepted and again when it is delivered is scrubbing once. */
  lemma ScrubIdempotent(t: Json, fields: seq<string>, mask: string)
    ensures Scrub(Scrub(t, fields, mask), fields, mask) == Scrub(t, fields, mask)
  {
    MaskAllIsScrubSet(t, PathsOf(fields), Str(mask));
    MaskAllIsScrubSet(Scrub(t, fields, mask), PathsOf(fields), Str(mask));
    ScrubSetIdempotent(t, SetOf(PathsOf(fields)), Str(mask));
  }

  // ---------- what each position holds afterwards ----------

  predicate Prefix(p: Path, q: Path) {
    |p| <= |q| && q[..|p|] == p
  }

  /** Some listed path ends strictly above q. */
  ghost predicate Cut(paths: set<Path>, q: Path) {
    exists p <- paths :: Prefix(p, q) && p != q
  }

  ghost predicate Untouched(paths: set<Path>, q: Path) {
    forall p <- paths :: !Prefix(p, q)
  }

  lemma UnderPrefix(paths: set<Path>, q: Path)
    requires q != [] && [] !in paths && [q[0]] !in paths
    ensures var below := Under(paths, q[0]);
            && [] !in below
            && (Cut(below, q[1..]) <==> Cut(paths, q))
            && (q in paths <==> q[1..] in below)
            && (Untouched(paths, q) ==> Untouched(below, q[1..]))
  {
    var below := Under(paths, q[0]);
    var head := [q[0]];
    forall p | p in paths && Prefix(p, q)
      ensures p[1..] in below && Prefix(p[1..], q[1..]) && (p[1..] == q[1..] <==> p == q)
    {
      assert p[0] == q[0];
      assert |p| == 1 ==> p == head;
      assert p == [p[0]] + p[1..] && q == [q[0]] + q[1..];
    }
    forall r | r in below && Prefix(r, q[1..])
      ensures [q[0]] + r in paths && Prefix([q[0]] + r, q) && ([q[0]] + r == q <==> r == q[1..])
    {
      var p :| p in paths && |p| > 1 && p[0] == q[0] && r == p[1..];
      assert p == [q[0]] + r;
      assert q == [q[0]] + q[1..];
    }
    if Cut(below, q[1..]) {
      var r :| r in below && Prefix(r, q[1..]) && r != q[1..];
      assert [q[0]] + r in paths;
    }
    if Cut(paths, q) {
      var p :| p in paths && Prefix(p, q) && p != q;
      assert p[1..] in below;
    }
    if q in paths {
      assert Prefix(q, q);
    }
    if q[1..] in below {
      assert Prefix(q[1..], q[1..]);
      assert [q[0]] + q[1..] == q;
    }
  }

  predicate SameShape(a: Json, b: Json) {
    if a.Node? then b.Node? && b.isArray == a.isArray && b.kids.Keys == a.kids.Keys else b == a
  }

  /**
   Every position after scrubbing: below a listed path nothing resolves; a listed path that resolved holds the mask; any
   other position resolves as before, with the same shape and the same value if it is a leaf.
   */
  lemma {:induction false} PositionsAfter(t: Json, paths: set<Path>, mask: Json, q: Path)
    requires [] !in paths && !mask.Node?
    ensures var before, after := Lookup(t, q), Lookup(ScrubSet(t, paths, mask), q);
            && (Cut(paths, q) ==> after == None)
            && (!Cut(paths, q) && q in paths ==> after == if before.Some? then Some(mask) else None)
            && (Untouched(paths, q) ==> (after.Some? <==> before.Some?) && (before.Some? ==> SameShape(before.value, after.value)))
    decreases |q|
  {
    if q != [] && t.Node? && q[0] in t.kids {
      var k := q[0];
      if [k] in paths {
        assert Prefix([k], q);
        if |q| > 1 {
          assert Cut(paths, q);
        } else {
          assert q == [k];
          forall p | p in paths && Prefix(p, q)
            ensures p == q
          {
          }
        }
      } else {
        UnderPrefix(paths, q);
        PositionsAfter(t.kids[k], Under(paths, k), mask, q[1..]);
      }
    }
    if q == [] {
      forall p | p in paths
        ensures !Prefix(p, q)
      {
      }
    }
  }

  // ---------- what each field string names ----------

  /** A path is listed exactly when its keys hold no dot and, joined by dots, are a listed field. */
  lemma ListedPath(fields: seq<string>, p: Path)
    ensures p in SetOf(PathsOf(fields)) <==> p != [] && Strings.Free(p, '.') && Strings.Joined(p, '.') in fields
  {
    var paths := PathsOf(fields);
    if p in paths {
      var i :| 0 <= i < |paths| && paths[i] == p;
      Strings.SplitJoins(fields[i], '.');
    }
    if p != [] && Strings.Free(p, '.') && Strings.Joined(p, '.') in fields {
      var i :| 0 <= i < |fields| && fields[i] == Strings.Joined(p, '.');
      Strings.JoinSplits(p, '.');
      assert paths[i] == p;
    }
  }

  /**
   Every position after scrubbing by field strings: nothing resolves below a listed field, a listed field that resolves
   holds the mask, and any other position resolves as before, with the same shape and the same value if it is a leaf.
   */
  lemma ScrubPositions(t: Json, fields: seq<string>, mask: string, q: Path)
    ensures var paths := SetOf(PathsOf(fields));
            var before, after := Lookup(t, q), Lookup(Scrub(t, fields, mask), q);
            && (q in paths && after.Some? ==> after == Some(Str(mask)))
            && (Untouched(paths, q) ==> (after.Some? <==> before.Some?) && (before.Some? ==> SameShape(before.value, after.value)))
    ensures var before, after := Lookup(t, q), Lookup(Scrub(t, fields, mask), q);
            && ((exists n | 0 < n < |q| :: Names(fields, q[..n])) ==> after == None)
            && ((forall n | 0 < n < |q| :: !Names(fields, q[..n])) && Names(fields, q) ==>
                  after == if before.Some? then Some(Str(mask)) else None)
            && ((forall n | 0 < n <= |q| :: !Names(fields, q[..n])) ==>
                  (after.Some? <==> before.Some?) && (before.Some? ==> SameShape(before.value, after.value)))
  {
    var paths := SetOf(PathsOf(fields));
    MaskAllIsScrubSet(t, PathsOf(fields), Str(mask));
    PositionsAfter(t, paths, Str(mask), q);
    forall p | p in paths && Prefix(p, q)
      ensures p != [] && p == q[..|p|] && Names(fields, p)
    {
      ListedPath(fields, p);
    }
    ListedPath(fields, q);
    if n :| 0 < n < |q| && Names(fields, q[..n]) {
      ListedPath(fields, q[..n]);
      assert Prefix(q[..n], q) && q[..n] != q;
    }
    assert q[..|q|] == q;
  }
}
