/**
 Reading and writing nested dictionaries by path: trees as values with the laws of get and set,
 and the dictionaries in memory that `setInDict` mutates in place.
 */
module NestedDict {
  import opened Wrappers

  datatype Error = IndexError | KeyError | TypeError

  type Path = seq<string>

  /** The value of an unshared dictionary tree; a leaf is any value that is not a dictionary and has no keys. */
  datatype Tree = Leaf(value: int) | Dict(entries: map<string, Tree>)

  function Get(t: Tree, path: Path): Result<Tree, Error> {
    if path == [] then Err(IndexError)
    else if t.Leaf? then Err(TypeError)
    else if path[0] !in t.entries then Err(KeyError)
    else if |path| == 1 then Ok(t.entries[path[0]])
    else Get(t.entries[path[0]], path[1..])
  }

  /** The dictionary under a key, or a new one where the key is missing or holds something else. */
  function Child(t: Tree, key: string): (c: Tree)
    requires t.Dict?
    ensures c.Dict?
  {
    if key in t.entries && t.entries[key].Dict? then t.entries[key] else Dict(map[])
  }

  function Set(t: Tree, path: Path, v: Tree): (r: Tree)
    requires t.Dict? && path != []
    ensures r.Dict?
    decreases |path|
  {
    if |path| == 1 then Dict(t.entries[path[0] := v])
    else Dict(t.entries[path[0] := Set(Child(t, path[0]), path[1..], v)])
  }

  // ---------- Laws ----------

  lemma {:induction false} GetAfterSet(t: Tree, path: Path, v: Tree)
    requires t.Dict? && path != []
    ensures Get(Set(t, path, v), path) == Ok(v)
    decreases |path|
  {
    if |path| > 1 {
      GetAfterSet(Child(t, path[0]), path[1..], v);
    }
  }

  lemma {:induction false} SetAfterSet(t: Tree, path: Path, v: Tree, w: Tree)
    requires t.Dict? && path != []
    ensures Set(Set(t, path, v), path, w) == Set(t, path, w)
    decreases |path|
  {
    if |path| > 1 {
      SetAfterSet(Child(t, path[0]), path[1..], v, w);
      assert Child(Set(t, path, v), path[0]) == Set(Child(t, path[0]), path[1..], v);
    }
    assert Set(Set(t, path, v), path, w).entries == Set(t, path, w).entries;
  }

  /**
   Reading a longer path is reading its first part and then the rest inside what that holds; a
   failure on the way is the failure of the whole. One key fails on a leaf, or where it is missing.
   */
  lemma {:induction false} GetComposes(t: Tree, p: Path, q: Path)
    requires p != [] && q != []
    ensures Get(t, p + q) == if Get(t, p).Ok? then Get(Get(t, p).value, q) else Get(t, p)
    ensures |p| == 1 && t.Leaf? ==> Get(t, p) == Err(TypeError)
    ensures |p| == 1 && t.Dict? && p[0] !in t.entries ==> Get(t, p) == Err(KeyError)
    decreases |p|
  {
    assert (p + q)[1..] == p[1..] + q;
    if |p| == 1 {
      assert p[1..] + q == q;
    } else if t.Dict? && p[0] in t.entries {
      GetComposes(t.entries[p[0]], p[1..], q);
    }
  }

  predicate Apart(p: Path, q: Path) {
    !(p <= q) && !(q <= p)
  }

  lemma ApartTails(p: Path, q: Path)
    requires Apart(p, q) && p[0] == q[0]
    ensures |p| > 1 && |q| > 1 && Apart(p[1..], q[1..])
  {
    assert p == [p[0]] + p[1..] && q == [q[0]] + q[1..];
  }

  /**
   Frame: a readable path that is neither a prefix nor an extension of the written one reads the
   same afterwards, and an unreadable one stays unreadable.
   */
  lemma {:induction false} GetElsewhere(t: Tree, path: Path, v: Tree, q: Path)
    requires t.Dict? && path != [] && Apart(path, q)
    ensures Get(t, q).Ok? ==> Get(Set(t, path, v), q) == Get(t, q)
    ensures Get(t, q).Err? ==> Get(Set(t, path, v), q).Err?
    decreases |path|
  {
    if q[0] == path[0] {
      ApartTails(path, q);
      GetElsewhere(Child(t, path[0]), path[1..], v, q[1..]);
    }
  }

  /** Below the written path, reads go on inside the written value. */
  lemma {:induction false} GetBelow(t: Tree, path: Path, v: Tree, below: Path)
    requires t.Dict? && path != [] && below != []
    ensures Get(Set(t, path, v), path + below) == Get(v, below)
    decreases |path|
  {
    assert (path + below)[1..] == path[1..] + below;
    if |path| > 1 {
      GetBelow(Child(t, path[0]), path[1..], v, below);
    } else {
      assert path[1..] + below == below;
    }
  }

  /** Above it, a read finds the dictionary that was there, or a new one, with the rest of the path written in it. */
  lemma {:induction false} GetAbove(t: Tree, above: Path, path: Path, v: Tree)
    requires t.Dict? && above != [] && path != []
    ensures var was := Get(t, above);
            Get(Set(t, above + path, v), above)
            == Ok(Set(if was.Ok? && was.value.Dict? then was.value else Dict(map[]), path, v))
    decreases |above|
  {
    assert (above + path)[1..] == above[1..] + path;
    if |above| > 1 {
      GetAbove(Child(t, above[0]), above[1..], path, v);
    } else {
      assert above[1..] + path == path;
    }
  }

  lemma SetUnderSameKey(t: Tree, p: Path, v: Tree, q: Path, w: Tree)
    requires t.Dict? && |p| > 1 && |q| > 1 && p[0] == q[0]
    ensures Set(Set(t, p, v), q, w)
         == Dict(t.entries[p[0] := Set(Set(Child(t, p[0]), p[1..], v), q[1..], w)])
  {
    assert Child(Set(t, p, v), p[0]) == Set(Child(t, p[0]), p[1..], v);
    assert Set(Set(t, p, v), q, w).entries == t.entries[p[0] := Set(Set(Child(t, p[0]), p[1..], v), q[1..], w)];
  }

  /** What a write stores under the first key of its path. */
  function Written(t: Tree, path: Path, v: Tree): Tree
    requires t.Dict? && path != []
  {
    if |path| == 1 then v else Set(Child(t, path[0]), path[1..], v)
  }

  lemma SetUnderOtherKey(t: Tree, p: Path, v: Tree, q: Path, w: Tree)
    requires t.Dict? && p != [] && q != [] && p[0] != q[0]
    ensures Set(Set(t, p, v), q, w) == Dict(t.entries[p[0] := Written(t, p, v)][q[0] := Written(t, q, w)])
  {
    var s := Set(t, p, v);
    assert s == Dict(t.entries[p[0] := Written(t, p, v)]);
    assert Child(s, q[0]) == Child(t, q[0]);
    assert Set(s, q, w) == Dict(s.entries[q[0] := Written(s, q, w)]);
  }

  lemma SwapUpdates<K, V>(m: map<K, V>, k: K, a: V, l: K, b: V)
    requires k != l
    ensures m[k := a][l := b] == m[l := b][k := a]
  {
  }

  /** Writes to paths apart from each other commute. */
  lemma {:induction false} SetsCommute(t: Tree, p: Path, v: Tree, q: Path, w: Tree)
    requires t.Dict? && p != [] && q != [] && Apart(p, q)
    ensures Set(Set(t, p, v), q, w) == Set(Set(t, q, w), p, v)
    decreases |p|
  {
    if p[0] == q[0] {
      ApartTails(p, q);
      SetsCommute(Child(t, p[0]), p[1..], v, q[1..], w);
      SetUnderSameKey(t, p, v, q, w);
      SetUnderSameKey(t, q, w, p, v);
    } else {
      SetUnderOtherKey(t, p, v, q, w);
      SetUnderOtherKey(t, q, w, p, v);
      SwapUpdates(t.entries, p[0], Written(t, p, v), q[0], Written(t, q, w));
    }
  }

  // ---------- Dictionaries in memory ----------

  datatype Value = Atom(value: int) | Sub(dict: DictNode)

  class DictNode {
    var entries: map<string, Value>
    ghost var repr: set<DictNode>

    constructor ()
      ensures Valid() && fresh(this) && repr == {this} && entries == map[] && Contents() == Dict(map[])
    {
      entries := map[];
      repr := {this};
    }

    /** Unshared: every subtree has its own nodes, apart from this node and from the other subtrees. */
    ghost predicate Valid()
      reads this, repr
      decreases repr
    {
      && this in repr
      && (forall k :: k in entries && entries[k].Sub? ==>
            && entries[k].dict in repr && entries[k].dict.repr < repr && this !in entries[k].dict.repr
            && entries[k].dict.Valid())
      && (forall j, k :: j in entries && k in entries && j != k && entries[j].Sub? && entries[k].Sub? ==>
            entries[j].dict.repr !! entries[k].dict.repr)
    }

    ghost function Contents(): Tree
      requires Valid()
      reads this, repr
      decreases repr
    {
      Dict(map k | k in entries :: if entries[k].Atom? then Leaf(entries[k].value) else entries[k].dict.Contents())
    }
  }

  ghost function Nodes(v: Value): set<DictNode>
    reads if v.Sub? then {v.dict} else {}
  {
    if v.Sub? then v.dict.repr else {}
  }

  ghost predicate ValidValue(v: Value)
    reads if v.Sub? then {v.dict} + v.dict.repr else {}
  {
    v.Sub? ==> v.dict.Valid()
  }

  ghost function TreeOf(v: Value): Tree
    requires ValidValue(v)
    reads if v.Sub? then {v.dict} + v.dict.repr else {}
  {
    if v.Atom? then Leaf(v.value) else v.dict.Contents()
  }

  method GetFromDict(d: DictNode, path: Path) returns (r: Result<Value, Error>)
    requires d.Valid()
    ensures r.Ok? ==> ValidValue(r.value) && Get(d.Contents(), path) == Ok(TreeOf(r.value))
    ensures r.Err? ==> Get(d.Contents(), path) == Err(r.error)
    decreases |path|
  {
    if |path| == 0 {
      return Err(IndexError);
    }
    var first, rest := path[0], path[1..];
    if first !in d.entries {
      return Err(KeyError);
    }
    if |rest| == 0 {
      return Ok(d.entries[first]);
    }
    if d.entries[first].Atom? {
      return Err(TypeError);
    }
    r := GetFromDict(d.entries[first].dict, rest);
  }

  /** Takes the nodes under a key into the representation; `trees` are what the entries hold. */
  ghost method Absorb(d: DictNode, key: string, trees: map<string, Tree>)
    requires d in d.repr && key in d.entries && d !in Nodes(d.entries[key])
    requires forall k :: k in d.entries && d.entries[k].Sub? ==> d.entries[k].dict.Valid()
    requires forall k :: k in d.entries && k != key && d.entries[k].Sub? ==>
               d.entries[k].dict in d.repr && d.entries[k].dict.repr < d.repr && d !in d.entries[k].dict.repr
    requires forall j, k :: j in d.entries && k in d.entries && j != k && d.entries[j].Sub? && d.entries[k].Sub? ==>
               d.entries[j].dict.repr !! d.entries[k].dict.repr
    requires d.entries.Keys == trees.Keys
    requires forall k :: k in d.entries ==> ValidValue(d.entries[k]) && TreeOf(d.entries[k]) == trees[k]
    modifies d`repr
    ensures d.repr == old(d.repr) + Nodes(d.entries[key])
    ensures d.Valid() && d.Contents() == Dict(trees)
  {
    d.repr := d.repr + Nodes(d.entries[key]);
    assert d.Valid();
    assert forall k :: k in d.entries ==> ValidValue(d.entries[k]) && TreeOf(d.entries[k]) == trees[k];
    assert d.Contents().entries == trees;
  }

  /** Stores a value whose nodes are not part of the tree yet. */
  method Store(d: DictNode, key: string, v: Value)
    requires d.Valid() && ValidValue(v) && Nodes(v) !! d.repr
    modifies d
    ensures d.Valid() && d.repr == old(d.repr) + old(Nodes(v))
    ensures d.entries == old(d.entries)[key := v]
    ensures d.Contents() == Dict(old(d.Contents()).entries[key := old(TreeOf(v))])
  {
    ghost var trees := d.Contents().entries[key := TreeOf(v)];
    d.entries := d.entries[key := v];
    Absorb(d, key, trees);
  }

  /** The dictionary under a key, put there if it is missing or something else is in its place. */
  method ChildDict(d: DictNode, key: string) returns (child: DictNode)
    requires d.Valid()
    modifies d
    ensures d.Valid() && fresh(d.repr - old(d.repr))
    ensures key in d.entries && d.entries[key] == Sub(child)
    ensures d.Contents() == Dict(old(d.Contents()).entries[key := Child(old(d.Contents()), key)])
    ensures child.Contents() == Child(old(d.Contents()), key)
  {
    if key !in d.entries || d.entries[key].Atom? {
      child := new DictNode();
      Store(d, key, Sub(child));
    } else {
      child := d.entries[key].dict;
      assert d.Contents().entries == d.Contents().entries[key := child.Contents()];
    }
  }

  /** `setInDict`: in place, replacing missing and non-dictionary intermediates by new dictionaries. */
  method SetInDict(d: DictNode, path: Path, v: Value) returns (error: Option<Error>)
    requires d.Valid() && ValidValue(v) && Nodes(v) !! d.repr
    modifies d.repr
    ensures path == [] ==> error == Some(IndexError) && d.Valid() && d.Contents() == old(d.Contents())
    ensures path != [] ==>
              && error == None && d.Valid()
              && d.Contents() == Set(old(d.Contents()), path, old(TreeOf(v)))
    ensures fresh(d.repr - old(d.repr) - old(Nodes(v)))
    decreases |path|, 0
  {
    if |path| == 0 {
      return Some(IndexError);
    }
    var first, rest := path[0], path[1..];
    if |rest| > 0 {
      SetDeeper(d, first, rest, v);
    } else {
      Store(d, first, v);
    }
    return None;
  }

  lemma Overwrite<K, V>(m: map<K, V>, key: K, first: V, second: V)
    ensures m[key := first][key := second] == m[key := second]
  {
  }

  /** The branch for a longer path. */
  method SetDeeper(d: DictNode, key: string, path: Path, v: Value)
    requires d.Valid() && path != []
    requires ValidValue(v) && Nodes(v) !! d.repr
    modifies d.repr
    ensures d.Valid() && fresh(d.repr - old(d.repr) - old(Nodes(v)))
    ensures d.Contents()
         == Dict(old(d.Contents()).entries[key := Set(Child(old(d.Contents()), key), path, old(TreeOf(v)))])
    decreases |path|, 2
  {
    ghost var was, tree := d.Contents(), TreeOf(v);
    var child := ChildDict(d, key);
    assert TreeOf(v) == tree;
    SetInChild(d, key, path, v);
    Overwrite(was.entries, key, Child(was, key), Set(Child(was, key), path, tree));
  }

  /** The recursive call, and what it means for the dictionary that holds the child. */
  method SetInChild(d: DictNode, key: string, path: Path, v: Value)
    requires d.Valid() && key in d.entries && d.entries[key].Sub? && path != []
    requires ValidValue(v) && Nodes(v) !! d.repr
    modifies d.repr
    ensures d.Valid() && fresh(d.repr - old(d.repr) - old(Nodes(v)))
    ensures d.Contents()
         == Dict(old(d.Contents()).entries[key := Set(old(d.entries[key].dict.Contents()), path, old(TreeOf(v)))])
    decreases |path|, 1
  {
    ghost var childRepr := d.entries[key].dict.repr;
    ghost var trees := d.Contents().entries[key := Set(d.entries[key].dict.Contents(), path, TreeOf(v))];
    var _ := SetInDict(d.entries[key].dict, path, v);
    forall k | k in d.entries && k != key && d.entries[k].Sub?
      ensures d.entries[k].dict.repr == old(d.entries[k].dict.repr)
      ensures d.entries[k].dict.Valid()
      ensures d.entries[k].dict.Contents() == old(d.entries[k].dict.Contents())
    {
      ghost var n := d.entries[k].dict;
      assert old(n.repr) !! childRepr;
    }
    Absorb(d, key, trees);
  }
}
