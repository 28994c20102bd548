/** Dotted container labels, sorted and inserted into a tree of log settings. */
module LabelTree {
  import opened Wrappers


  // ---------- Strings: order, split and join ----------

  /** Go's string order. */
  predicate Less(a: string, b: string) {
    b != "" && (a == "" || a[0] < b[0] || (a[0] == b[0] && Less(a[1..], b[1..])))
  }

  /** The first difference decides. */
  lemma {:induction false} LessAtDifference(a: string, b: string, i: nat)
    requires i < |a| && i < |b| && a[..i] == b[..i] && a[i] != b[i]
    ensures Less(a, b) <==> a[i] < b[i]
    decreases i
  {
    if i > 0 {
      assert a[0] == a[..i][0] == b[..i][0] == b[0];
      assert a[1..][..i - 1] == a[..i][1..] == b[..i][1..] == b[1..][..i - 1];
      LessAtDifference(a[1..], b[1..], i - 1);
    }
  }

  lemma {:induction false} LessTransitive(a: string, b: string, c: string)
    requires Less(a, b) && Less(b, c)
    ensures Less(a, c)
    decreases |a|
  {
    if a != "" && a[0] == b[0] == c[0] { LessTransitive(a[1..], b[1..], c[1..]); }
  }

  lemma {:induction false} LessIrreflexive(a: string)
    ensures !Less(a, a)
    decreases |a|
  {
    if a != "" { LessIrreflexive(a[1..]); }
  }

  lemma {:induction false} LessTotal(a: string, b: string)
    ensures Less(a, b) || Less(b, a) || a == b
    decreases |a|
  {
    if a != "" && b != "" && a[0] == b[0] {
      LessTotal(a[1..], b[1..]);
      assert a == [a[0]] + a[1..] && b == [b[0]] + b[1..];
    }
  }

  /** Sorting puts a proper prefix first. */
  lemma {:induction false} PrefixIsLess(a: string, b: string)
    requires a < b
    ensures Less(a, b) && !Less(b, a)
    decreases |a|
  {
    if a != "" {
      assert a[0] == b[0];
      assert a[1..] < b[1..];
      PrefixIsLess(a[1..], b[1..]);
    }
  }

  predicate Dotless(c: string) { '.' !in c }

  predicate AllDotless(cs: seq<string>) { forall c :: c in cs ==> Dotless(c) }

  /** `strings.Split(s, ".")`. */
  function Split(s: string): (cs: seq<string>)
    ensures cs != []
  {
    if s == "" then [""]
    else if s[0] == '.' then [""] + Split(s[1..])
    else var rest := Split(s[1..]); [[s[0]] + rest[0]] + rest[1..]
  }

  function Join(cs: seq<string>): string
    requires cs != []
  {
    if |cs| == 1 then cs[0] else cs[0] + "." + Join(cs[1..])
  }

  lemma {:induction false} SplitIsDotless(s: string)
    ensures AllDotless(Split(s))
  {
    if s != "" {
      SplitIsDotless(s[1..]);
      var rest := Split(s[1..]);
      assert rest[0] in rest;
      forall c | c in Split(s) ensures Dotless(c) {
        assert c in rest || c == "" || c == [s[0]] + rest[0];
      }
    }
  }

  lemma {:induction false} JoinSplit(s: string)
    ensures Join(Split(s)) == s
  {
    if s != "" {
      var rest := Split(s[1..]);
      JoinSplit(s[1..]);
      assert s == [s[0]] + s[1..];
      if s[0] == '.' {
        assert ([""] + rest)[1..] == rest;
      } else {
        var cs := [[s[0]] + rest[0]] + rest[1..];
        assert cs[1..] == rest[1..];
        if |cs| > 1 { assert [s[0]] + (rest[0] + "." + Join(rest[1..])) == [s[0]] + rest[0] + "." + Join(rest[1..]); }
      }
    }
  }

  lemma {:induction false} SplitJoin(cs: seq<string>)
    requires cs != [] && AllDotless(cs)
    ensures Split(Join(cs)) == cs
    decreases |cs|, if cs == [] then 0 else |cs[0]|
  {
    var s := Join(cs);
    if cs[0] == "" {
      if |cs| > 1 {
        SplitJoin(cs[1..]);
        assert s[1..] == Join(cs[1..]);
      }
    } else {
      assert cs[0] in cs && cs[0][0] in cs[0];
      var shorter := [cs[0][1..]] + cs[1..];
      assert cs[0] == [cs[0][0]] + cs[0][1..];
      assert shorter[1..] == cs[1..];
      assert s[1..] == Join(shorter);
      SplitJoin(shorter);
    }
  }

  /** Joining fewer components gives a proper string prefix. */
  lemma {:induction false} JoinPrefix(cs: seq<string>, i: nat)
    requires 0 < i < |cs|
    ensures Join(cs[..i]) < Join(cs)
    decreases |cs|
  {
    if i == 1 {
      assert cs[..1] == [cs[0]];
    } else {
      JoinPrefix(cs[1..], i - 1);
      assert cs[..i][1..] == cs[1..][..i - 1];
    }
  }

  // ---------- The tree ----------


  datatype Tree = Node(value: string, children: map<string, Tree>)

  /** The value at a path, if the tree has that path. */
  function Lookup(t: Tree, path: seq<string>): Option<string>
    decreases |path|
  {
    if path == [] then Some(t.value)
    else if path[0] in t.children then Lookup(t.children[path[0]], path[1..])
    else None
  }

  /** The tree after `insert`, and whether it returned nil; a failure below the first level is dropped. */
  function Inserted(t: Tree, keys: seq<string>, value: string): (Tree, bool)
    decreases |keys|
  {
    if keys == [] then (t, true)
    else if |keys| > 1 then
      if keys[0] in t.children then
        (t.(children := t.children[keys[0] := Inserted(t.children[keys[0]], keys[1..], value).0]), true)
      else (t, false)
    else (t.(children := t.children[keys[0] := Node(value, map[])]), true)
  }

  /** Inserting a new path under an existing parent adds that path alone; without a parent nothing changes. */
  lemma {:induction false} InsertAddsOnePath(t: Tree, keys: seq<string>, value: string, path: seq<string>)
    requires keys != [] && Lookup(t, keys).None?
    ensures var parent := Lookup(t, keys[..|keys| - 1]);
      Lookup(Inserted(t, keys, value).0, path) == if path == keys && parent.Some? then Some(value) else Lookup(t, path)
    ensures Inserted(t, keys, value).1 <==> (|keys| == 1 || Lookup(t, keys[..1]).Some?)
    decreases |keys|
  {
    assert keys[..1] == [keys[0]] && keys[..1][1..] == [];
    if |keys| == 1 {
      assert keys == [keys[0]] && keys[1..] == [];
      if path != [] && path[0] == keys[0] {
        assert path == keys <==> path[1..] == [] by { assert path == [path[0]] + path[1..]; }
      }
    } else if keys[0] in t.children {
      InsertAddsOnePath(t.children[keys[0]], keys[1..], value, if path == [] then [] else path[1..]);
      assert keys[..|keys| - 1][1..] == keys[1..][..|keys| - 2];
      if path != [] && path[0] == keys[0] {
        assert path == keys <==> path[1..] == keys[1..] by {
          assert path == [path[0]] + path[1..] && keys == [keys[0]] + keys[1..];
        }
      }
    }
  }

  /** Inserting an existing path replaces its node: the value is the new one, everything below it is gone. */
  lemma {:induction false} InsertReplaces(t: Tree, keys: seq<string>, value: string, path: seq<string>)
    requires keys != [] && Lookup(t, keys).Some?
    ensures Inserted(t, keys, value).1
    ensures Lookup(Inserted(t, keys, value).0, path) ==
      if path == keys then Some(value) else if keys <= path then None else Lookup(t, path)
    decreases |keys|
  {
    if path != [] && path[0] == keys[0] {
      assert path == [path[0]] + path[1..] && keys == [keys[0]] + keys[1..];
      assert keys <= path <==> keys[1..] <= path[1..];
      if |keys| > 1 {
        InsertReplaces(t.children[keys[0]], keys[1..], value, path[1..]);
      } else {
        assert keys[1..] == [];
      }
    }
  }

  // ---------- The mutable tree ----------

  /** A node as the daemon builds it; `tree` is the value it stands for. */
  class LogInfoNode {
    var value: string
    var children: map<string, LogInfoNode>
    ghost var Repr: set<LogInfoNode>
    ghost var tree: Tree

    ghost predicate Valid()
      reads this, Repr
      decreases Repr
      ensures Valid() ==> this in Repr
    {
      && this in Repr
      && tree.value == value && tree.children.Keys == children.Keys
      && (forall k :: k in children ==>
            && children[k] in Repr && children[k].Repr <= Repr && this !in children[k].Repr
            && children[k].Valid() && children[k].tree == tree.children[k])
      && (forall j, k :: j in children && k in children && j != k ==> children[j].Repr !! children[k].Repr)
    }

    constructor (value: string)
      ensures Valid() && fresh(Repr) && tree == Node(value, map[])
    {
      this.value, children, tree := value, map[], Node(value, map[]);
      Repr := {this};
    }

    /** The children on their own: valid, apart from each other and from this node. */
    ghost predicate Hung()
      reads this, children.Values, set k, o | k in children && o in children[k].Repr :: o
    {
      && (forall k :: k in children ==> this !in children[k].Repr && children[k].Valid())
      && (forall j, k :: j in children && k in children && j != k ==> children[j].Repr !! children[k].Repr)
    }

    /** Brings this node up to date with one changed or new child. */
    ghost method Adopt(key: string)
      requires this in Repr && value == tree.value && key in children && Hung()
      requires tree.children.Keys + {key} == children.Keys
      requires forall k :: k in children && k != key ==>
        children[k].Repr <= Repr && children[k].tree == tree.children[k]
      modifies `Repr, `tree
      ensures Valid()
      ensures Repr == old(Repr) + children[key].Repr
      ensures tree == old(tree).(children := old(tree).children[key := children[key].tree])
    {
      Repr := Repr + children[key].Repr;
      tree := tree.(children := tree.children[key := children[key].tree]);
      StillHung();
      Adopted(key);
      Assembled();
    }

    twostate lemma Adopted(key: string)
      requires key in children && children == old(children) && Repr == old(Repr) + children[key].Repr
      requires old(tree).children.Keys + {key} == children.Keys
      requires tree == old(tree).(children := old(tree).children[key := children[key].tree])
      requires forall k :: k in children ==> children[k].Repr == old(children[k].Repr) && children[k].tree == old(children[k].tree)
      requires forall k :: k in children && k != key ==>
        old(children[k].Repr) <= old(Repr) && old(children[k].tree) == old(tree).children[k]
      ensures forall k :: k in children ==> children[k].Repr <= Repr && children[k].tree == tree.children[k]
    {
    }

    /** A change to this node alone leaves its children as they were. */
    twostate lemma StillHung()
      requires old(Hung()) && children == old(children)
      requires forall k, x :: k in children && x in old(children[k].Repr) ==> unchanged(x)
      ensures Hung()
      ensures forall k :: k in children ==> children[k].Repr == old(children[k].Repr) && children[k].tree == old(children[k].tree)
    {
    }

    /** The children on their own, and this node's account of them. */
    lemma Assembled()
      requires this in Repr && tree.value == value && tree.children.Keys == children.Keys && Hung()
      requires forall k :: k in children ==> children[k].Repr <= Repr && children[k].tree == tree.children[k]
      ensures Valid()
    {
    }

    /** A new leaf under `key`, replacing whatever was there. */
    method AddLeaf(key: string, value: string)
      requires Valid()
      modifies this
      ensures Valid() && fresh(Repr - old(Repr))
      ensures tree == Inserted(old(tree), [key], value).0
    {
      var child := new LogInfoNode(value);
      children := children[key := child];
      HungNew(key, child);
      Adopt(key);
    }

    /** A new child beside the others. */
    twostate lemma HungNew(key: string, new child: LogInfoNode)
      requires old(Valid()) && child.Valid() && fresh(child.Repr)
      requires children == old(children)[key := child] && Repr == old(Repr) && tree == old(tree)
      requires forall x :: x in old(Repr) && x != this ==> unchanged(x)
      ensures Hung()
      ensures forall k :: k in children && k != key ==> children[k].Repr <= Repr && children[k].tree == tree.children[k]
    {
      forall k | k in children && k != key
        ensures children[k].Repr == old(children[k].Repr) && children[k].Valid() && children[k].tree == tree.children[k]
      {
      }
    }

    /** Hands the insertion on to the child; its verdict is dropped. */
    method InsertBelow(keys: seq<string>, value: string)
      requires Valid() && |keys| > 1 && keys[0] in children
      modifies Repr
      ensures Valid() && fresh(Repr - old(Repr))
      ensures tree == Inserted(old(tree), keys, value).0
      decreases |keys|, 0
    {
      var child := children[keys[0]];
      var _ := child.Insert(keys[1..], value);
      assert forall k :: k in children && k != keys[0] ==>
        children[k].Repr == old(children[k].Repr) && children[k].tree == old(children[k].tree);
      assert Hung();
      Adopt(keys[0]);
    }

    method Insert(keys: seq<string>, value: string) returns (ok: bool)
      requires Valid()
      modifies Repr
      ensures Valid() && fresh(Repr - old(Repr))
      ensures (tree, ok) == Inserted(old(tree), keys, value)
      decreases |keys|, 1
    {
      if |keys| == 0 { return true; }
      if |keys| > 1 {
        if keys[0] !in children { return false; }
        InsertBelow(keys, value);
      } else {
        assert keys == [keys[0]];
        AddLeaf(keys[0], value);
      }
      ok := true;
    }

    /** `get`: the value of a direct child, or the empty string. */
    method Get(key: string) returns (r: string)
      requires Valid()
      ensures r == match Lookup(tree, [key]) case Some(v) => v case None => ""
    {
      assert [key][1..] == [];
      r := if key in children then children[key].value else "";
    }
  }

  // ---------- Building the tree from labels ----------

  function LogsPrefix(prefix: string): string { prefix + ".logs." }
  function CustomConfig(prefix: string): string { prefix + "_logs_custom_config" }

  function DotCount(s: string): nat {
    if s == "" then 0 else (if s[0] == '.' then 1 else 0) + DotCount(s[1..])
  }

  lemma {:induction false} DotCountAppend(a: string, b: string)
    ensures DotCount(a + b) == DotCount(a) + DotCount(b)
    decreases |a|
  {
    if a == "" {
      assert a + b == b;
    } else {
      assert (a + b)[1..] == a[1..] + b;
      DotCountAppend(a[1..], b);
    }
  }

  /** Neither the custom-config name nor the single-dot test ever hides a log label. */
  lemma NoLabelIsHidden(prefix: string, k: string)
    requires LogsPrefix(prefix) <= k
    ensures k != CustomConfig(prefix) && DotCount(k) != 1
  {
    assert k[|prefix|] == '.' && CustomConfig(prefix)[|prefix|] == '_';
    var rest := k[|prefix| + 6..];
    assert k == prefix + (".logs." + rest);
    DotCountAppend(prefix, ".logs." + rest);
    DotCountAppend(".logs.", rest);
    assert ".logs."[1..] == "logs." && "logs."[1..] == "ogs." && "ogs."[1..] == "gs." && "gs."[1..] == "s." && "s."[1..] == ".";
    assert DotCount("s.") == DotCount(".") == 1;
    assert DotCount("gs.") == 1;
    assert DotCount("ogs.") == 1;
    assert DotCount(".logs.") == 2;
  }

  /** The label that names this path. */
  function LabelOf(prefix: string, path: seq<string>): string
    requires path != []
  {
    LogsPrefix(prefix) + Join(path)
  }

  /** Every non-empty dotted prefix of the path is one of the labels. */
  predicate Grounded(names: set<string>, prefix: string, path: seq<string>) {
    path != [] && AllDotless(path) && forall i :: 0 < i <= |path| ==> LabelOf(prefix, path[..i]) in names
  }

  /** The tree holds exactly the grounded paths, each with its own label's value. */
  ghost predicate Holds(t: Tree, names: set<string>, labels: map<string, string>, prefix: string) {
    && names <= labels.Keys
    && forall path {:trigger Lookup(t, path)} :: path != [] ==>
         Lookup(t, path) == if Grounded(names, prefix, path) then Some(labels[LabelOf(prefix, path[..|path|])]) else None
  }

  /** A label with several components whose first component is no label. */
  predicate Orphan(names: set<string>, prefix: string, path: seq<string>) {
    |path| > 1 && AllDotless(path) && LabelOf(prefix, path) in names && LabelOf(prefix, path[..1]) !in names
  }

  lemma LabelOfInjective(prefix: string, p: seq<string>, q: seq<string>)
    requires p != [] && q != [] && AllDotless(p) && AllDotless(q) && LabelOf(prefix, p) == LabelOf(prefix, q)
    ensures p == q
  {
    assert Join(p) == LabelOf(prefix, p)[|LogsPrefix(prefix)|..] == Join(q);
    SplitJoin(p);
    SplitJoin(q);
  }

  lemma LabelOfPrefix(prefix: string, path: seq<string>, i: nat)
    requires 0 < i < |path|
    ensures LabelOf(prefix, path[..i]) < LabelOf(prefix, path)
  {
    JoinPrefix(path, i);
  }

  ghost predicate Below(names: set<string>, k: string) { forall n :: n in names ==> Less(n, k) }

  /** Adding the next label in order: no earlier label extends it, so only its own path can become grounded. */
  lemma GroundedAfter(names: set<string>, prefix: string, key: seq<string>, path: seq<string>)
    requires key != [] && AllDotless(key) && path != []
    requires Below(names, LabelOf(prefix, key))
    ensures !Grounded(names, prefix, key)
    ensures Grounded(names + {LabelOf(prefix, key)}, prefix, path) <==>
      if path == key then |key| == 1 || Grounded(names, prefix, key[..|key| - 1]) else Grounded(names, prefix, path)
  {
    var k := LabelOf(prefix, key);
    LessIrreflexive(k);
    assert key[..|key|] == key && path[..|path|] == path;
    assert k !in names;
    if path == key {
      forall i | 0 < i < |key| ensures LabelOf(prefix, key[..i]) != k && key[..|key| - 1][..i] == key[..i] {
        LabelOfPrefix(prefix, key, i);
      }
      if Grounded(names + {k}, prefix, key) && |key| > 1 {
        var parent := key[..|key| - 1];
        assert forall c :: c in parent ==> c in key;
        assert forall i :: 0 < i <= |parent| ==> parent[..i] == key[..i];
      }
      if |key| > 1 && Grounded(names, prefix, key[..|key| - 1]) {
        var parent := key[..|key| - 1];
        forall i | 0 < i <= |key| ensures LabelOf(prefix, key[..i]) in names + {k} {
          if i < |key| { assert parent[..i] == key[..i]; }
        }
      }
    } else if Grounded(names + {k}, prefix, path) {
      forall i | 0 < i <= |path| ensures LabelOf(prefix, path[..i]) in names {
        if LabelOf(prefix, path[..i]) == k {
          assert forall c :: c in path[..i] ==> c in path;
          LabelOfInjective(prefix, path[..i], key);
          LabelOfPrefix(prefix, path, i);
          PrefixIsLess(k, LabelOf(prefix, path));
          assert false;
        }
      }
    }
  }

  /** One insertion in sorted order keeps the correspondence, and fails exactly on an orphan. */
  lemma InsertHolds(t: Tree, names: set<string>, labels: map<string, string>, prefix: string, key: seq<string>)
    requires Holds(t, names, labels, prefix)
    requires key != [] && AllDotless(key) && LabelOf(prefix, key) in labels && Below(names, LabelOf(prefix, key))
    ensures var r := Inserted(t, key, labels[LabelOf(prefix, key)]);
      && Holds(r.0, names + {LabelOf(prefix, key)}, labels, prefix)
      && (r.1 <==> |key| == 1 || LabelOf(prefix, key[..1]) in names)
  {
    var k := LabelOf(prefix, key);
    var r := Inserted(t, key, labels[k]);
    GroundedAfter(names, prefix, key, key);
    assert Lookup(t, key).None?;
    var parent := key[..|key| - 1];
    forall path | path != []
      ensures Lookup(r.0, path) ==
        if Grounded(names + {k}, prefix, path) then Some(labels[LabelOf(prefix, path[..|path|])]) else None
    {
      InsertAddsOnePath(t, key, labels[k], path);
      GroundedAfter(names, prefix, key, path);
      assert path[..|path|] == path;
      assert |key| == 1 ==> parent == [];
      assert |key| > 1 ==> Lookup(t, parent).Some? == Grounded(names, prefix, parent);
    }
    InsertAddsOnePath(t, key, labels[k], key);
    if |key| > 1 {
      assert key[..1][..1] == key[..1] && key[..1] == [key[0]] && key[0] in key;
      assert Grounded(names, prefix, key[..1]) <==> LabelOf(prefix, key[..1]) in names;
    }
  }

  /** A label outside the prefix changes nothing. */
  lemma SkipHolds(t: Tree, names: set<string>, labels: map<string, string>, prefix: string, k: string)
    requires Holds(t, names, labels, prefix) && k in labels && !(LogsPrefix(prefix) <= k)
    ensures Holds(t, names + {k}, labels, prefix)
  {
  }

  predicate Ascending(names: seq<string>) {
    forall i, j :: 0 <= i < j < |names| ==> Less(names[i], names[j])
  }

  function Elements(names: seq<string>): set<string> { set n | n in names }

  /** `sort.Strings` on the keys of the label map. */
  method SortedNames(keys: set<string>) returns (names: seq<string>)
    ensures Ascending(names) && Elements(names) == keys
  {
    names := [];
    var left := keys;
    while left != {}
      invariant Ascending(names) && left <= keys && Elements(names) == keys - left
      decreases left
    {
      var k :| k in left;
      var at := 0;
      while at < |names| && Less(names[at], k)
        invariant at <= |names| && forall i :: 0 <= i < at ==> Less(names[i], k)
      {
        at := at + 1;
      }
      assert k !in Elements(names);
      names := InsertedSorted(names, at, k);
      left := left - {k};
    }
  }

  method InsertedSorted(names: seq<string>, at: nat, k: string) returns (r: seq<string>)
    requires Ascending(names) && k !in Elements(names) && at <= |names|
    requires forall i :: 0 <= i < at ==> Less(names[i], k)
    requires at < |names| ==> !Less(names[at], k)
    ensures Ascending(r) && Elements(r) == Elements(names) + {k}
  {
    r := names[..at] + [k] + names[at..];
    forall j | at <= j < |names| ensures Less(k, names[j]) {
      assert names[at] in Elements(names);
      LessTotal(names[at], k);
      if at < j { LessTransitive(k, names[at], names[j]); }
    }
    assert Elements(names) == Elements(names[..at]) + Elements(names[at..]) by {
      assert names == names[..at] + names[at..];
    }
  }

  /** No orphan among the labels processed so far. */
  ghost predicate NoOrphanIn(done: set<string>, all: set<string>, prefix: string) {
    forall path {:trigger Orphan(all, prefix, path)} :: Orphan(all, prefix, path) ==> LabelOf(prefix, path) !in done
  }

  /** Sorted order brings the first component of a label before the label itself, if it is a label at all. */
  lemma OrphanIffEarly(labels: map<string, string>, names: seq<string>, i: nat, prefix: string, key: seq<string>)
    requires Ascending(names) && Elements(names) == labels.Keys && i < |names|
    requires key != [] && AllDotless(key) && names[i] == LabelOf(prefix, key)
    ensures Orphan(labels.Keys, prefix, key) <==> |key| > 1 && LabelOf(prefix, key[..1]) !in Elements(names[..i])
  {
    assert names[i] in Elements(names);
    if |key| > 1 && LabelOf(prefix, key[..1]) in labels {
      var first := LabelOf(prefix, key[..1]);
      assert first in Elements(names);
      var j :| 0 <= j < |names| && names[j] == first;
      LabelOfPrefix(prefix, key, 1);
      PrefixIsLess(first, names[i]);
      assert j < i;
      assert names[..i][j] == first;
    }
    forall n | n in Elements(names[..i]) ensures n in labels {
      assert n in names;
      assert n in Elements(names);
    }
  }

  lemma NextName(names: seq<string>, i: nat)
    requires Ascending(names) && i < |names|
    ensures Elements(names[..i + 1]) == Elements(names[..i]) + {names[i]}
    ensures Below(Elements(names[..i]), names[i]) && names[i] in Elements(names)
  {
  }

  /** The turn of the build loop that inserts the label of `key`. */
  lemma InsertTurn(t: Tree, labels: map<string, string>, names: seq<string>, i: nat, prefix: string, key: seq<string>)
    requires Ascending(names) && Elements(names) == labels.Keys && i < |names|
    requires key != [] && AllDotless(key) && names[i] == LabelOf(prefix, key) && names[i] in labels
    requires Holds(t, Elements(names[..i]), labels, prefix)
    requires NoOrphanIn(Elements(names[..i]), labels.Keys, prefix)
    ensures var r := Inserted(t, key, labels[names[i]]);
      && Holds(r.0, Elements(names[..i + 1]), labels, prefix)
      && (r.1 ==> NoOrphanIn(Elements(names[..i + 1]), labels.Keys, prefix))
      && (!r.1 ==> Orphan(labels.Keys, prefix, key))
  {
    NextName(names, i);
    InsertHolds(t, Elements(names[..i]), labels, prefix, key);
    OrphanIffEarly(labels, names, i, prefix, key);
    forall path | Orphan(labels.Keys, prefix, path) && LabelOf(prefix, path) == names[i] ensures path == key {
      LabelOfInjective(prefix, path, key);
    }
  }

  /** The turn that skips a name: it is no log label. */
  lemma SkipTurn(t: Tree, labels: map<string, string>, names: seq<string>, i: nat, prefix: string)
    requires Ascending(names) && Elements(names) == labels.Keys && i < |names|
    requires Skipped(prefix, names[i])
    requires Holds(t, Elements(names[..i]), labels, prefix)
    requires NoOrphanIn(Elements(names[..i]), labels.Keys, prefix)
    ensures Holds(t, Elements(names[..i + 1]), labels, prefix)
    ensures NoOrphanIn(Elements(names[..i + 1]), labels.Keys, prefix)
  {
    NextName(names, i);
    if LogsPrefix(prefix) <= names[i] { NoLabelIsHidden(prefix, names[i]); }
    SkipHolds(t, Elements(names[..i]), labels, prefix, names[i]);
  }

  predicate Skipped(prefix: string, k: string) {
    k == CustomConfig(prefix) || !(LogsPrefix(prefix) <= k) || DotCount(k) == 1
  }

  function KeyPath(prefix: string, k: string): seq<string>
    requires LogsPrefix(prefix) <= k
  {
    Split(k[|LogsPrefix(prefix)|..])
  }

  /** The build loop from name `i` on, as a fold. */
  function BuiltFrom(t: Tree, labels: map<string, string>, names: seq<string>, i: nat, prefix: string): (Tree, bool)
    requires i <= |names| && forall k :: k in names ==> k in labels
    decreases |names| - i
  {
    if i == |names| then (t, true)
    else if Skipped(prefix, names[i]) then BuiltFrom(t, labels, names, i + 1, prefix)
    else
      var r := Inserted(t, KeyPath(prefix, names[i]), labels[names[i]]);
      if r.1 then BuiltFrom(r.0, labels, names, i + 1, prefix) else r
  }

  /** What the fold builds: the grounded paths, or a failure on the first orphan. */
  lemma {:induction false} BuiltHolds(t: Tree, labels: map<string, string>, names: seq<string>, i: nat, prefix: string)
    requires Ascending(names) && Elements(names) == labels.Keys && i <= |names|
    requires forall k :: k in names ==> k in labels
    requires Holds(t, Elements(names[..i]), labels, prefix)
    requires NoOrphanIn(Elements(names[..i]), labels.Keys, prefix)
    ensures var r := BuiltFrom(t, labels, names, i, prefix);
      && (r.1 ==> Holds(r.0, labels.Keys, labels, prefix))
      && (r.1 <==> forall path :: !Orphan(labels.Keys, prefix, path))
    decreases |names| - i
  {
    if i == |names| {
      assert names[..i] == names;
    } else if Skipped(prefix, names[i]) {
      SkipTurn(t, labels, names, i, prefix);
      BuiltHolds(t, labels, names, i + 1, prefix);
    } else {
      var logLabel := names[i][|LogsPrefix(prefix)|..];
      SplitIsDotless(logLabel);
      JoinSplit(logLabel);
      assert LabelOf(prefix, Split(logLabel)) == names[i];
      InsertTurn(t, labels, names, i, prefix, Split(logLabel));
      var r := Inserted(t, Split(logLabel), labels[names[i]]);
      if r.1 { BuiltHolds(r.0, labels, names, i + 1, prefix); }
    }
  }

  /** The tree-building half of `getLogConfigs`, for one log prefix. */
  method BuildTree(labels: map<string, string>, prefix: string) returns (root: LogInfoNode, ok: bool)
    ensures root.Valid() && fresh(root.Repr)
    ensures ok ==> Holds(root.tree, labels.Keys, labels, prefix)
    ensures ok <==> forall path :: !Orphan(labels.Keys, prefix, path)
  {
    var names := SortedNames(labels.Keys);
    assert forall k :: k in names ==> k in Elements(names);
    root, ok := BuildFrom(labels, prefix, names);
    BuiltHolds(Node("", map[]), labels, names, 0, prefix);
  }

  method BuildFrom(labels: map<string, string>, prefix: string, names: seq<string>) returns (root: LogInfoNode, ok: bool)
    requires forall k :: k in names ==> k in labels
    ensures root.Valid() && fresh(root.Repr)
    ensures (root.tree, ok) == BuiltFrom(Node("", map[]), labels, names, 0, prefix)
  {
    root := new LogInfoNode("");
    for i := 0 to |names|
      invariant root.Valid() && fresh(root.Repr)
      invariant BuiltFrom(root.tree, labels, names, i, prefix) == BuiltFrom(Node("", map[]), labels, names, 0, prefix)
    {
      var k := names[i];
      if !Skipped(prefix, k) {
        ok := root.Insert(Split(k[|LogsPrefix(prefix)|..]), labels[k]);
        if !ok { return; }
      }
    }
    ok := true;
  }
}
