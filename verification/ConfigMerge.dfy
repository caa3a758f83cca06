/** The overlay merge of configuration trees, in place and as a function, and its laws. */
module ConfigMerge {

  /** A TOML value: a table, or anything else, which the merge treats as one opaque scalar. */
  datatype Toml = Table(entries: map<string, Toml>) | Scalar(text: string)

  const EMPTY: Toml := Table(map[])

  function Merge(base: Toml, overlay: Toml): Toml
    decreases overlay
  {
    if base.Table? && overlay.Table? then
      Table(map k | k in base.entries.Keys + overlay.entries.Keys ::
              if k !in overlay.entries then base.entries[k]
              else if k !in base.entries then overlay.entries[k]
              else Merge(base.entries[k], overlay.entries[k]))
    else overlay
  }

  /** The entries of a merged table, one key at a time. */
  lemma MergedEntry(base: Toml, overlay: Toml, k: string)
    requires base.Table? && overlay.Table?
    ensures var merged := Merge(base, overlay);
            && merged.Table?
            && (k in merged.entries <==> k in base.entries || k in overlay.entries)
            && (k in overlay.entries ==> merged.entries[k] == if k in base.entries
                                                               then Merge(base.entries[k], overlay.entries[k])
                                                               else overlay.entries[k])
            && (k in base.entries && k !in overlay.entries ==> merged.entries[k] == base.entries[k])
  {
  }

  /** How far an entry is: merged if the loop has passed its key, as in the base if not. */
  ghost predicate EntryDone(slots: map<string, Toml>, base: map<string, Toml>, rest: map<string, Toml>,
                            goal: map<string, Toml>, k: string)
  {
    if k in rest
    then (k in slots <==> k in base) && (k in base ==> slots[k] == base[k])
    else (k in slots <==> k in goal) && (k in goal ==> slots[k] == goal[k])
  }

  /** Walks the overlay's entries in an arbitrary order, updating the base entry by entry. */
  method MergeInto(base: Toml, overlay: Toml) returns (merged: Toml)
    ensures merged == Merge(base, overlay)
    decreases overlay
  {
    if base.Table? && overlay.Table? {
      var slots, rest := base.entries, overlay.entries;
      ghost var goal := Merge(base, overlay).entries;
      while rest != map[]
        invariant rest.Keys <= overlay.entries.Keys && forall k :: k in rest ==> rest[k] == overlay.entries[k]
        invariant forall k :: EntryDone(slots, base.entries, rest, goal, k)
        decreases |rest|
      {
        ghost var was := slots;
        var k :| k in rest;
        var v := rest[k];
        assert EntryDone(slots, base.entries, rest, goal, k);
        MergedEntry(base, overlay, k);
        if k in slots {
          var inner := MergeInto(slots[k], v);
          slots := slots[k := inner];
        } else {
          slots := slots[k := v];
        }
        ghost var left := rest - {k};
        forall j ensures EntryDone(slots, base.entries, left, goal, j) {
          assert EntryDone(was, base.entries, rest, goal, j);
        }
        rest := rest - {k};
      }
      merged := Table(slots);
      assert slots == goal by {
        forall k ensures k in slots <==> k in goal { assert EntryDone(slots, base.entries, rest, goal, k); }
        forall k | k in goal ensures slots[k] == goal[k] { assert EntryDone(slots, base.entries, rest, goal, k); }
      }
    } else {
      merged := overlay;
    }
  }

  // ---- Paths ----------------------------------------------------------------

  /** What stands at a path: nothing, a table, or a scalar with its text. */
  datatype Node = Absent | Branch | Leaf(text: string)

  function At(v: Toml, path: seq<string>): Node
    decreases |path|
  {
    if path == [] then (match v case Table(_) => Branch case Scalar(text) => Leaf(text))
    else if v.Table? && path[0] in v.entries then At(v.entries[path[0]], path[1..])
    else Absent
  }

  /** A scalar of `v` stands strictly above the path, so nothing below it shows through. */
  ghost predicate Shadows(v: Toml, path: seq<string>) {
    exists n :: 0 <= n < |path| && At(v, path[..n]).Leaf?
  }

  /** The whole merge, told path by path without following its recursion. */
  ghost function Overlaid(base: Toml, overlay: Toml, path: seq<string>): Node {
    if !At(overlay, path).Absent? then At(overlay, path)
    else if Shadows(overlay, path) then Absent
    else At(base, path)
  }

  lemma ShadowsStep(v: Toml, path: seq<string>)
    requires path != []
    ensures Shadows(v, path) <==> v.Scalar? || (path[0] in v.entries && Shadows(v.entries[path[0]], path[1..]))
  {
    if v.Scalar? {
      assert At(v, path[..0]).Leaf?;
    } else if path[0] in v.entries {
      var inner := v.entries[path[0]];
      if Shadows(inner, path[1..]) {
        var n :| 0 <= n < |path[1..]| && At(inner, path[1..][..n]).Leaf?;
        assert path[..n + 1][1..] == path[1..][..n];
        assert At(v, path[..n + 1]).Leaf?;
      }
      if Shadows(v, path) {
        var n :| 0 <= n < |path| && At(v, path[..n]).Leaf?;
        assert path[..n][1..] == path[1..][..n - 1];
        assert At(inner, path[1..][..n - 1]).Leaf?;
      }
    }
  }

  /** An overlay entry always wins; a base entry survives exactly where the overlay is silent and casts no shadow. */
  lemma {:induction false} MergeByPath(base: Toml, overlay: Toml, path: seq<string>)
    ensures At(Merge(base, overlay), path) == Overlaid(base, overlay, path)
    decreases |path|
  {
    if path != [] {
      var k := path[0];
      ShadowsStep(overlay, path);
      if base.Table? && overlay.Table? && k in base.entries && k in overlay.entries {
        MergeByPath(base.entries[k], overlay.entries[k], path[1..]);
      }
    }
  }

  /** Paths tell two trees apart. */
  lemma {:induction false} SameByPath(a: Toml, b: Toml)
    requires forall path :: At(a, path) == At(b, path)
    ensures a == b
    decreases a
  {
    assert At(a, []) == At(b, []);
    if a.Table? {
      forall k | k in a.entries.Keys + b.entries.Keys
        ensures k in a.entries && k in b.entries && a.entries[k] == b.entries[k]
      {
        assert At(a, [k]) == At(b, [k]);
        assert [k][1..] == [];
        forall path ensures At(a.entries[k], path) == At(b.entries[k], path) {
          assert At(a, [k] + path) == At(b, [k] + path);
          assert ([k] + path)[1..] == path;
        }
        SameByPath(a.entries[k], b.entries[k]);
      }
      assert a.entries.Keys == b.entries.Keys;
      assert a.entries == b.entries;
    }
  }

  // ---- Laws -----------------------------------------------------------------

  /** Applying an overlay twice changes nothing more, and a tree overlaid with itself is itself. */
  lemma MergeIdempotent(base: Toml, overlay: Toml)
    ensures Merge(Merge(base, overlay), overlay) == Merge(base, overlay)
    ensures Merge(base, base) == base
  {
    forall path ensures At(Merge(Merge(base, overlay), overlay), path) == At(Merge(base, overlay), path) {
      MergeByPath(base, overlay, path);
      MergeByPath(Merge(base, overlay), overlay, path);
    }
    SameByPath(Merge(Merge(base, overlay), overlay), Merge(base, overlay));
    forall path ensures At(Merge(base, base), path) == At(base, path) {
      MergeByPath(base, base, path);
    }
    SameByPath(Merge(base, base), base);
  }

  /** The empty table changes nothing, and yields to every tree. */
  lemma MergeIdentity(v: Toml)
    ensures Merge(EMPTY, v) == v
    ensures Merge(v, EMPTY) == v <==> v.Table?
  {
    if v.Table? {
      assert Merge(EMPTY, v).entries == v.entries && Merge(v, EMPTY).entries == v.entries;
    }
  }

  /** Where regrouping three layers shows: `a` has an entry on which `c` is silent, below a path where `b`
      put a scalar and `c` a table again. */
  ghost predicate Resurfaces(a: Toml, b: Toml, c: Toml, path: seq<string>) {
    && !At(a, path).Absent?
    && At(c, path).Absent? && !Shadows(c, path)
    && exists n :: 0 <= n < |path| && At(b, path[..n]).Leaf? && At(c, path[..n]).Branch?
  }

  /** A node that is there has tables all the way down to it. */
  lemma {:induction false} TablesAbove(v: Toml, path: seq<string>, n: nat)
    requires n < |path| && !At(v, path).Absent?
    ensures At(v, path[..n]).Branch?
    decreases n
  {
    if n > 0 {
      TablesAbove(v.entries[path[0]], path[1..], n - 1);
      assert path[..n][1..] == path[1..][..n - 1];
    }
  }

  /** Below a scalar there is nothing. */
  lemma NothingBelowLeaf(v: Toml, path: seq<string>, n: nat)
    requires n < |path| && At(v, path[..n]).Leaf?
    ensures At(v, path).Absent?
  {
    if !At(v, path).Absent? { TablesAbove(v, path, n); }
  }

  /** The scalar that shadows a path is the only one above it. */
  lemma ShadowIsUnique(v: Toml, path: seq<string>, n: nat, m: nat)
    requires n < m < |path| && At(v, path[..n]).Leaf?
    ensures At(v, path[..m]).Absent?
  {
    assert path[..m][..n] == path[..n];
    NothingBelowLeaf(v, path[..m], n);
  }

  lemma ShadowReachesDown(v: Toml, path: seq<string>, n: nat)
    requires n <= |path|
    ensures Shadows(v, path[..n]) ==> Shadows(v, path)
  {
    if Shadows(v, path[..n]) {
      var m :| 0 <= m < n && At(v, path[..n][..m]).Leaf?;
      assert path[..n][..m] == path[..m];
    }
  }

  /** A merge casts a shadow where its overlay does, or where its base does and the overlay neither fills that spot
      nor shadows it itself. */
  lemma MergeShadows(b: Toml, c: Toml, path: seq<string>)
    ensures Shadows(Merge(b, c), path) <==>
            Shadows(c, path)
            || exists n :: 0 <= n < |path| && At(b, path[..n]).Leaf? && At(c, path[..n]).Absent?
  {
    forall n | 0 <= n <= |path|
      ensures At(Merge(b, c), path[..n]) == Overlaid(b, c, path[..n])
    {
      MergeByPath(b, c, path[..n]);
    }
    if Shadows(Merge(b, c), path) {
      var n :| 0 <= n < |path| && At(Merge(b, c), path[..n]).Leaf?;
      assert At(Merge(b, c), path[..n]) == Overlaid(b, c, path[..n]);
    }
    if Shadows(c, path) {
      var n :| 0 <= n < |path| && At(c, path[..n]).Leaf?;
      assert At(Merge(b, c), path[..n]) == Overlaid(b, c, path[..n]);
    } else if exists n :: 0 <= n < |path| && At(b, path[..n]).Leaf? && At(c, path[..n]).Absent? {
      var n :| 0 <= n < |path| && At(b, path[..n]).Leaf? && At(c, path[..n]).Absent?;
      ShadowReachesDown(c, path, n);
      assert At(Merge(b, c), path[..n]) == Overlaid(b, c, path[..n]);
    }
  }

  /** Regrouping changes what stands at a path exactly when an entry of the first layer resurfaces there. */
  lemma RegroupAtPath(a: Toml, b: Toml, c: Toml, path: seq<string>)
    ensures At(Merge(Merge(a, b), c), path) == At(Merge(a, Merge(b, c)), path) <==> !Resurfaces(a, b, c, path)
  {
    MergeByPath(Merge(a, b), c, path);
    MergeByPath(a, b, path);
    MergeByPath(a, Merge(b, c), path);
    MergeByPath(b, c, path);
    MergeShadows(b, c, path);
    if exists n :: 0 <= n < |path| && At(b, path[..n]).Leaf? && At(c, path[..n]).Absent? {
      var n :| 0 <= n < |path| && At(b, path[..n]).Leaf? && At(c, path[..n]).Absent?;
      NothingBelowLeaf(b, path, n);
      if exists m :: 0 <= m < |path| && At(b, path[..m]).Leaf? && At(c, path[..m]).Branch? {
        var m :| 0 <= m < |path| && At(b, path[..m]).Leaf? && At(c, path[..m]).Branch?;
        if n < m { ShadowIsUnique(b, path, n, m); }
        if m < n { ShadowIsUnique(b, path, m, n); }
      }
    }
    if exists m :: 0 <= m < |path| && At(b, path[..m]).Leaf? && At(c, path[..m]).Branch? {
      var m :| 0 <= m < |path| && At(b, path[..m]).Leaf? && At(c, path[..m]).Branch?;
      NothingBelowLeaf(b, path, m);
    }
  }

  /** Three layers may be merged in either grouping exactly when nothing resurfaces. */
  lemma MergeAssociativeExactly(a: Toml, b: Toml, c: Toml)
    ensures Merge(Merge(a, b), c) == Merge(a, Merge(b, c)) <==> forall path :: !Resurfaces(a, b, c, path)
  {
    forall path
      ensures At(Merge(Merge(a, b), c), path) == At(Merge(a, Merge(b, c)), path) <==> !Resurfaces(a, b, c, path)
    {
      RegroupAtPath(a, b, c, path);
    }
    if forall path :: !Resurfaces(a, b, c, path) {
      SameByPath(Merge(Merge(a, b), c), Merge(a, Merge(b, c)));
    }
  }

  /** In particular when no path is a table, then not, then a table again. */
  lemma MergeAssociative(a: Toml, b: Toml, c: Toml)
    requires forall path :: !(At(a, path).Branch? && At(b, path).Leaf? && At(c, path).Branch?)
    ensures Merge(Merge(a, b), c) == Merge(a, Merge(b, c))
  {
    forall path ensures !Resurfaces(a, b, c, path) {
      if Resurfaces(a, b, c, path) {
        var n :| 0 <= n < |path| && At(b, path[..n]).Leaf? && At(c, path[..n]).Branch?;
        TablesAbove(a, path, n);
      }
    }
    MergeAssociativeExactly(a, b, c);
  }

  /** One entry under "api": a table with a scalar in it, a scalar, or an empty table. */
  function Api(v: Toml): Toml { Table(map["api" := v]) }

  lemma BelowApi(v: Toml, rest: seq<string>)
    ensures At(Api(v), ["api"] + rest) == At(v, rest)
  {
    assert (["api"] + rest)[1..] == rest;
  }

  lemma ApiResurfaces(inner: Toml, off: Toml)
    requires inner.Scalar? && off.Scalar?
    ensures Resurfaces(Api(Table(map["bind" := inner])), Api(off), Api(EMPTY), ["api"] + ["bind"])
  {
    var path := ["api"] + ["bind"];
    assert ["bind"][1..] == [];
    BelowApi(Table(map["bind" := inner]), ["bind"]);
    BelowApi(EMPTY, ["bind"]);
    assert path[..1] == ["api"] + [] && path[..0] == [];
    BelowApi(off, []);
    BelowApi(EMPTY, []);
  }

  /** A case where the grouping matters. */
  lemma GroupingMatters()
    ensures exists a, b, c :: Merge(Merge(a, b), c) != Merge(a, Merge(b, c))
  {
    var a, b := Api(Table(map["bind" := Scalar("0.0.0.0")])), Api(Scalar("off"));
    ApiResurfaces(Scalar("0.0.0.0"), Scalar("off"));
    RegroupAtPath(a, b, Api(EMPTY), ["api"] + ["bind"]);
  }
}
