/**
  Numbering of the CPU flags (local_macros/src/lib.rs): a tree of named groups is flattened into a
  list of flags with consecutive ids, and the ids are packed into 64-bit words.
 */
module FlagIds {

  datatype FlagTree = Leaf(name: string) | Node(name: string, body: seq<FlagTree>)

  /** The flags of a tree in the order they are written, each with the path of its groups as prefix. */
  function Leaves(tree: FlagTree, prefix: string): seq<string>
    decreases tree, 0
  {
    match tree
    case Leaf(name) => [prefix + name]
    case Node(name, body) => LeavesOf(body, prefix + name + "_")
  }

  function LeavesOf(trees: seq<FlagTree>, prefix: string): seq<string>
    decreases trees
  {
    if trees == [] then [] else LeavesOf(trees[..|trees| - 1], prefix) + Leaves(trees[|trees| - 1], prefix)
  }

  lemma LeavesStep(trees: seq<FlagTree>, i: nat, prefix: string)
    requires i < |trees|
    ensures LeavesOf(trees[..i + 1], prefix) == LeavesOf(trees[..i], prefix) + Leaves(trees[i], prefix)
  {
    assert trees[..i + 1][..i] == trees[..i];
  }

  // ---------- names and paths ----------

  /** The flags of a tree as paths: the names of the groups around a flag, then its own. */
  function Paths(tree: FlagTree): seq<seq<string>>
    decreases tree, 0
  {
    match tree
    case Leaf(name) => [[name]]
    case Node(name, body) => Below(name, PathsOf(body))
  }

  function PathsOf(trees: seq<FlagTree>): seq<seq<string>>
    decreases trees
  {
    if trees == [] then [] else PathsOf(trees[..|trees| - 1]) + Paths(trees[|trees| - 1])
  }

  function Below(name: string, paths: seq<seq<string>>): seq<seq<string>> {
    seq(|paths|, i requires 0 <= i < |paths| => [name] + paths[i])
  }

  /** The names along a path with an underscore between each two. */
  function Joined(path: seq<string>): string {
    if path == [] then "" else if |path| == 1 then path[0] else path[0] + "_" + Joined(path[1..])
  }

  /** The listed name of every flag is its path, joined. */
  ghost predicate NamesOf(names: seq<string>, prefix: string, paths: seq<seq<string>>) {
    |names| == |paths| && forall i :: 0 <= i < |names| ==> paths[i] != [] && names[i] == prefix + Joined(paths[i])
  }

  lemma NamesBelow(names: seq<string>, prefix: string, name: string, paths: seq<seq<string>>)
    requires NamesOf(names, prefix + name + "_", paths)
    ensures NamesOf(names, prefix, Below(name, paths))
  {
    forall i | 0 <= i < |names| ensures names[i] == prefix + Joined(Below(name, paths)[i]) {
      var path := Below(name, paths)[i];
      assert path == [name] + paths[i] && path[1..] == paths[i];
      assert prefix + name + "_" + Joined(paths[i]) == prefix + (name + "_" + Joined(paths[i]));
    }
  }

  lemma {:induction false} LeavesArePaths(tree: FlagTree, prefix: string)
    ensures NamesOf(Leaves(tree, prefix), prefix, Paths(tree))
    decreases tree, 0
  {
    if tree.Node? {
      LeavesOfArePaths(tree.body, prefix + tree.name + "_");
      NamesBelow(LeavesOf(tree.body, prefix + tree.name + "_"), prefix, tree.name, PathsOf(tree.body));
    }
  }

  lemma {:induction false} LeavesOfArePaths(trees: seq<FlagTree>, prefix: string)
    ensures NamesOf(LeavesOf(trees, prefix), prefix, PathsOf(trees))
    decreases trees
  {
    if trees != [] {
      LeavesOfArePaths(trees[..|trees| - 1], prefix);
      LeavesArePaths(trees[|trees| - 1], prefix);
    }
  }

  /** No name has an underscore of its own. */
  ghost predicate Plain(path: seq<string>) {
    forall i :: 0 <= i < |path| ==> '_' !in path[i]
  }

  lemma NotShorter(a: string, x: string, b: string, y: string)
    requires '_' !in b && |a| < |b|
    ensures a + "_" + x != b + "_" + y
  {
    assert (a + "_" + x)[|a|] == '_' && (b + "_" + y)[|a|] == b[|a|];
  }

  /** A name is cut off at its first underscore. */
  lemma FirstUnderscore(a: string, x: string, b: string, y: string)
    requires '_' !in a && '_' !in b && a + "_" + x == b + "_" + y
    ensures a == b && x == y
  {
    if |a| < |b| {
      NotShorter(a, x, b, y);
    } else if |b| < |a| {
      NotShorter(b, y, a, x);
    } else {
      assert a == (a + "_" + x)[..|a|] && b == (b + "_" + y)[..|b|];
      assert x == (a + "_" + x)[|a| + 1..] && y == (b + "_" + y)[|b| + 1..];
    }
  }

  lemma HasUnderscore(path: seq<string>)
    requires |path| > 1
    ensures '_' in Joined(path)
  {
    assert Joined(path)[|path[0]|] == '_';
  }

  /** Different paths of such names give different names. */
  lemma {:induction false} JoinedIsInjective(p: seq<string>, q: seq<string>)
    requires p != [] && q != [] && Plain(p) && Plain(q) && Joined(p) == Joined(q)
    ensures p == q
  {
    if |p| == 1 && |q| == 1 {
      assert p == [p[0]] && q == [q[0]];
    } else if |p| > 1 && |q| > 1 {
      FirstUnderscore(p[0], Joined(p[1..]), q[0], Joined(q[1..]));
      JoinedIsInjective(p[1..], q[1..]);
      assert p == [p[0]] + p[1..] && q == [q[0]] + q[1..];
    } else {
      HasUnderscore(if |p| > 1 then p else q);
    }
  }

  /** Flags with different paths have different names, as long as no name has an underscore. */
  ghost predicate NamesDiffer(flat: seq<(nat, string)>, paths: seq<seq<string>>) {
    && |flat| == |paths|
    && forall i, j :: 0 <= i < |flat| && 0 <= j < |flat| && Plain(paths[i]) && Plain(paths[j]) && paths[i] != paths[j] ==>
      flat[i].1 != flat[j].1
  }

  lemma JoinedNamesDiffer(flat: seq<(nat, string)>, paths: seq<seq<string>>)
    requires |flat| == |paths| && forall i :: 0 <= i < |flat| ==> paths[i] != [] && flat[i].1 == Joined(paths[i])
    ensures NamesDiffer(flat, paths)
  {
    forall i, j | 0 <= i < |flat| && 0 <= j < |flat| && Plain(paths[i]) && Plain(paths[j]) && paths[i] != paths[j]
      ensures flat[i].1 != flat[j].1
    {
      if flat[i].1 == flat[j].1 {
        JoinedIsInjective(paths[i], paths[j]);
      }
    }
  }

  predicate NumberedFrom(flat: seq<(nat, string)>, first: nat, names: seq<string>) {
    |flat| == |names| && forall i :: 0 <= i < |flat| ==> flat[i] == (first + i, names[i])
  }

  lemma NumberedConcat(a: seq<(nat, string)>, b: seq<(nat, string)>, first: nat, names: seq<string>, more: seq<string>)
    requires NumberedFrom(a, first, names) && NumberedFrom(b, first + |names|, more)
    ensures NumberedFrom(a + b, first, names + more)
  {
  }

  class Expander {
    var currentId: nat
    var flatList: seq<(nat, string)>

    constructor ()
      ensures currentId == 0 && flatList == []
    {
      currentId := 0;
      flatList := [];
    }

    /** Appends the flags of `tree`, numbered from the current id, and leaves what was listed before alone. */
    method ExpandTree(tree: FlagTree, prefix: string)
      modifies this
      ensures currentId == old(currentId) + |Leaves(tree, prefix)|
      ensures |flatList| == |old(flatList)| + |Leaves(tree, prefix)| && old(flatList) <= flatList
      ensures NumberedFrom(flatList[|old(flatList)|..], old(currentId), Leaves(tree, prefix))
      decreases tree, 0
    {
      match tree
      case Leaf(name) =>
        flatList := flatList + [(currentId, prefix + name)];
        currentId := currentId + 1;
      case Node(name, body) =>
        ExpandAll(body, prefix + name + "_");
    }

    method ExpandAll(trees: seq<FlagTree>, prefix: string)
      modifies this
      ensures currentId == old(currentId) + |LeavesOf(trees, prefix)|
      ensures |flatList| == |old(flatList)| + |LeavesOf(trees, prefix)| && old(flatList) <= flatList
      ensures NumberedFrom(flatList[|old(flatList)|..], old(currentId), LeavesOf(trees, prefix))
      decreases trees
    {
      assert trees[..0] == [];
      for i := 0 to |trees|
        invariant currentId == old(currentId) + |LeavesOf(trees[..i], prefix)|
        invariant |flatList| == |old(flatList)| + |LeavesOf(trees[..i], prefix)| && old(flatList) <= flatList
        invariant NumberedFrom(flatList[|old(flatList)|..], old(currentId), LeavesOf(trees[..i], prefix))
      {
        ghost var before := flatList;
        ExpandTree(trees[i], prefix);
        LeavesStep(trees, i, prefix);
        NumberedConcat(before[|old(flatList)|..], flatList[|before|..],
          old(currentId), LeavesOf(trees[..i], prefix), Leaves(trees[i], prefix));
        assert flatList[|old(flatList)|..] == before[|old(flatList)|..] + flatList[|before|..];
      }
      assert trees[..|trees|] == trees;
    }
  }

  /**
    The generated table: ids are exactly the positions, so they are distinct, and every id has a
    bit of its own inside the words, of which there are no more than needed.
   */
  method DefineCpuFlags(flags: seq<FlagTree>) returns (flat: seq<(nat, string)>, words: nat)
    ensures |flat| == |PathsOf(flags)|
    ensures forall i :: 0 <= i < |flat| ==> flat[i] == (i, Joined(PathsOf(flags)[i]))
    ensures NamesDiffer(flat, PathsOf(flags))
    ensures forall i :: 0 <= i < |flat| ==> flat[i].0 / 64 < words
    ensures words > 0 ==> exists i :: 0 <= i < |flat| && flat[i].0 / 64 == words - 1
    ensures forall i, j :: 0 <= i < j < |flat| ==>
      flat[i].0 / 64 != flat[j].0 / 64 || flat[i].0 % 64 != flat[j].0 % 64
  {
    var e := new Expander();
    e.ExpandAll(flags, "");
    flat := e.flatList;
    assert flat[0..] == flat;
    LeavesOfArePaths(flags, "");
    forall i | 0 <= i < |flat| ensures flat[i] == (i, Joined(PathsOf(flags)[i])) {
      assert "" + Joined(PathsOf(flags)[i]) == Joined(PathsOf(flags)[i]);
    }
    JoinedNamesDiffer(flat, PathsOf(flags));
    var count := e.currentId;
    words := (count + 63) / 64;
    if words > 0 {
      assert flat[count - 1].0 == count - 1;
    }
  }
}
