/** The caching `require`: what it runs, how often, and in which order, on any graph of modules. */
module Require {
  import opened Graph

  type Name = string

  /** A module's body, as the modules it requires one after another; a JSON module requires none. */
  datatype File = File(deps: seq<Name>)

  type Files = map<Name, File>

  function Elements(s: seq<Name>): set<Name> {
    set m | m in s
  }

  predicate Distinct(s: seq<Name>) {
    forall j, k :: 0 <= j < k < |s| ==> s[j] != s[k]
  }

  // ------------------------------------------------------------ the graph

  /** Each module with the modules it requires. */
  function Links(files: Files): (g: map<Name, set<Name>>)
    ensures g.Keys == files.Keys
  {
    map m | m in files :: set d | d in files[m].deps && d in files
  }

  /** Every module that `root` reaches is of higher rank than those it requires. */
  ghost predicate Ranked(files: Files, root: Name, rank: map<Name, nat>) {
    && files.Keys <= rank.Keys
    && forall m, d :: m in files && Reaches(Links(files), root, m) && d in files[m].deps && d in files ==>
         rank[d] < rank[m]
  }

  ghost predicate Acyclic(files: Files, root: Name) {
    exists rank :: Ranked(files, root, rank)
  }

  // ------------------------------------------------------------ what a call does

  /** Bodies have been started since the cache and the finished were `c` and `f`, and have run to their end. */
  ghost predicate Since(c: set<Name>, f: seq<Name>, cache: set<Name>, finished: seq<Name>) {
    && f <= finished && cache == c + Elements(finished[|f|..])
    && forall k :: |f| <= k < |finished| ==> finished[k] !in c
  }

  /** What the bodies that finished since then require has been started, and they are reached from the root. */
  ghost predicate Complete(files: Files, root: Name, cache: set<Name>, finished: seq<Name>, from: nat) {
    && (forall k, d :: from <= k < |finished| && finished[k] in files && d in files[finished[k]].deps && d in files
          ==> d in cache)
    && (forall k :: from <= k < |finished| ==> Reaches(Links(files), root, finished[k]))
  }

  /** What they require had finished before they did. */
  ghost predicate InOrder(files: Files, finished: seq<Name>, from: nat) {
    forall k, d :: from <= k < |finished| && finished[k] in files && d in files[finished[k]].deps && d in files
      ==> d in finished[..k]
  }

  /** The modules that are being run, but for `self`, are of higher rank than `name`. */
  ghost predicate Below(files: Files, name: Name, rank: map<Name, nat>, cache: set<Name>, finished: seq<Name>,
                        self: set<Name>)
  {
    && files.Keys <= rank.Keys
    && (name in files ==>
          forall u :: u in cache && u in files && u !in finished && u !in self ==> rank[name] < rank[u])
  }

  lemma Nothing(files: Files, root: Name, c: set<Name>, f: seq<Name>)
    ensures Since(c, f, c, f) && Complete(files, root, c, f, |f|) && InOrder(files, f, |f|)
  {
    assert f[|f|..] == [];
  }

  lemma SinceTwice(c0: set<Name>, f0: seq<Name>, c1: set<Name>, f1: seq<Name>, c2: set<Name>, f2: seq<Name>)
    requires Since(c0, f0, c1, f1) && Since(c1, f1, c2, f2)
    ensures Since(c0, f0, c2, f2) && c1 <= c2 && f0 <= f1 <= f2
    ensures forall m :: m in c0 && m !in f1 ==> m !in f2
  {
    assert f2[|f0|..] == f1[|f0|..] + f2[|f1|..];
    assert f2 == f1 + f2[|f1|..];
  }

  lemma CompleteTwice(files: Files, root: Name, from: nat, c1: set<Name>, f1: seq<Name>, c2: set<Name>, f2: seq<Name>)
    requires c1 <= c2 && f1 <= f2 && from <= |f1|
    requires Complete(files, root, c1, f1, from) && Complete(files, root, c2, f2, |f1|)
    ensures Complete(files, root, c2, f2, from)
  {
    hide Reaches;
    assert forall k :: from <= k < |f1| ==> f2[k] == f1[k];
  }

  lemma InOrderTwice(files: Files, from: nat, f1: seq<Name>, f2: seq<Name>)
    requires f1 <= f2 && from <= |f1| && InOrder(files, f1, from) && InOrder(files, f2, |f1|)
    ensures InOrder(files, f2, from)
  {
    assert forall k :: from <= k < |f1| ==> f2[k] == f1[k] && f2[..k] == f1[..k];
  }

  lemma StillBelow(files: Files, root: Name, name: Name, dep: Name, rank: map<Name, nat>, c0: set<Name>, f0: seq<Name>,
                   c1: set<Name>, f1: seq<Name>)
    requires name in files && Reaches(Links(files), root, name) && dep in files[name].deps
    requires Ranked(files, root, rank) && Below(files, name, rank, c0, f0, {name}) && Since(c0, f0, c1, f1)
    ensures Below(files, dep, rank, c1, f1, {})
  {
    hide Reaches;
    if dep in files {
      forall u | u in c1 && u in files && u !in f1 ensures rank[dep] < rank[u] {
        assert u !in f1[|f0|..] && u !in f0;
      }
    }
  }

  /** The body has come to its end. */
  lemma Finish(files: Files, root: Name, name: Name, c0: set<Name>, f0: seq<Name>, cache: set<Name>, f: seq<Name>,
               ordered: bool)
    requires name in c0 && name !in f && name in files && Reaches(Links(files), root, name)
    requires Since(c0, f0, cache, f) && Complete(files, root, cache, f, |f0|) && Distinct(f) && Elements(f) <= cache
    requires forall d :: d in files[name].deps && d in files ==> d in cache
    requires ordered ==> InOrder(files, f, |f0|) && forall d :: d in files[name].deps && d in files ==> d in f
    ensures var g := f + [name];
      && Since(c0 - {name}, f0, cache, g) && Complete(files, root, cache, g, |f0|)
      && Distinct(g) && Elements(g) <= cache
      && (ordered ==> InOrder(files, g, |f0|))
  {
    hide Reaches;
    var g := f + [name];
    assert g[|f0|..] == f[|f0|..] + [name];
    assert forall k :: 0 <= k < |f| ==> g[k] == f[k] && g[..k] == f[..k];
    assert g[..|f|] == f;
  }

  // ------------------------------------------------------------ the code

  class Loader {
    const files: Files
    var cache: set<Name>
    ghost var finished: seq<Name>   // the modules whose body has run to its end, in that order
    ghost var partial: bool         // a `require` has returned a module whose body had not

    ghost predicate Valid()
      reads this
    {
      cache <= files.Keys && Distinct(finished) && Elements(finished) <= cache
    }

    constructor (files: Files)
      ensures Valid() && cache == {} && finished == [] && !partial && this.files == files
    {
      this.files, cache, finished, partial := files, {}, [], false;
    }

    /** `require`: the cache entry is there before the body runs. */
    method Load(name: Name, ghost root: Name, ghost rank: map<Name, nat>)
      requires Valid()
      requires name in files ==> Reaches(Links(files), root, name)
      modifies this
      ensures Valid() && Since(old(cache), old(finished), cache, finished)
      ensures name in files ==> name in cache
      ensures Complete(files, root, cache, finished, |old(finished)|)
      ensures old(partial) ==> partial
      ensures !partial ==> InOrder(files, finished, |old(finished)|) && (name in files ==> name in finished)
      ensures Ranked(files, root, rank) && Below(files, name, rank, old(cache), old(finished), {}) ==>
                partial == old(partial)
      decreases files.Keys - cache, 1
    {
      hide Reaches;
      assert finished[|finished|..] == [];
      if name in cache {
        if name !in finished { partial := true; }
        return;
      }
      if name !in files { return; }
      cache := cache + {name};
      RunBody(name, root, rank);
      assert old(cache) + {name} - {name} == old(cache);
    }

    /** Calls the body, which requires its modules one after another. */
    method RunBody(name: Name, ghost root: Name, ghost rank: map<Name, nat>)
      requires Valid() && name in cache && name !in finished && Reaches(Links(files), root, name)
      modifies this
      ensures Valid() && Since(old(cache) - {name}, old(finished), cache, finished)
      ensures name in cache && name in finished
      ensures Complete(files, root, cache, finished, |old(finished)|)
      ensures old(partial) ==> partial
      ensures !partial ==> InOrder(files, finished, |old(finished)|)
      ensures Ranked(files, root, rank) && Below(files, name, rank, old(cache), old(finished), {name}) ==>
                partial == old(partial)
      decreases files.Keys - cache, 2
    {
      hide Reaches, Since, Complete, InOrder, Below, Ranked, Distinct;
      ghost var c0, f0 := cache, finished;
      var deps := files[name].deps;
      Nothing(files, root, cache, finished);
      for i := 0 to |deps|
        invariant Valid() && Since(c0, f0, cache, finished) && c0 <= cache && name !in finished
        invariant Complete(files, root, cache, finished, |f0|)
        invariant forall j :: 0 <= j < i && deps[j] in files ==> deps[j] in cache
        invariant old(partial) ==> partial
        invariant !partial ==> InOrder(files, finished, |f0|)
        invariant !partial ==> forall j :: 0 <= j < i && deps[j] in files ==> deps[j] in finished
        invariant Ranked(files, root, rank) && Below(files, name, rank, c0, f0, {name}) ==> partial == old(partial)
      {
        ghost var c1, f1 := cache, finished;
        if deps[i] in files { ReachesStep(Links(files), root, name, deps[i]); }
        if Ranked(files, root, rank) && Below(files, name, rank, c0, f0, {name}) {
          StillBelow(files, root, name, deps[i], rank, c0, f0, c1, f1);
        }
        Load(deps[i], root, rank);
        SinceTwice(c0, f0, c1, f1, cache, finished);
        CompleteTwice(files, root, |f0|, c1, f1, cache, finished);
        if !partial { InOrderTwice(files, |f0|, f1, finished); }
      }
      Finish(files, root, name, c0, f0, cache, finished, !partial);
      finished := finished + [name];
    }

    /** The first `require` of a fresh loader: it ends; it runs the bodies of exactly the modules that the root
        reaches, each once; and it hands out an unfinished module exactly if those form a cycle.  Without one,
        every module finishes after all that it requires. */
    method LoadRoot(root: Name)
      requires Valid() && cache == {} && finished == [] && !partial
      modifies this
      ensures Distinct(finished) && Elements(finished) == cache
      ensures forall m :: m in cache <==> Reaches(Links(files), root, m)
      ensures !partial <==> Acyclic(files, root)
      ensures Acyclic(files, root) ==> InOrder(files, finished, 0)
    {
      hide Reaches, Ranked;
      ghost var rank: map<Name, nat> := map[];
      if Acyclic(files, root) { rank := RankOf(files, root); }
      if root in files { ReachesSelf(Links(files), root); }
      Load(root, root, rank);
      assert finished[0..] == finished;
      Listed();
      forall m | Reaches(Links(files), root, m) ensures m in cache {
        Inside(root, m);
        ClosedHolds(Links(files), cache, root, m);
      }
      if !partial { OrderRanks(root); }
    }

    lemma Listed()
      requires Valid() && cache == Elements(finished)
      requires forall k, d ::
        0 <= k < |finished| && finished[k] in files && d in files[finished[k]].deps && d in files ==> d in cache
      ensures Closed(Links(files), cache)
    {
    }

    /** Nothing is reached from outside the graph. */
    lemma Inside(a: Name, b: Name)
      requires Reaches(Links(files), a, b)
      ensures a in files && b in files
    {
      var p := TrailOf(Links(files), a, b);
      assert p[0] in Links(files) && p[|p| - 1] in Links(files);
    }

    /** The order in which the bodies finish is a ranking. */
    lemma OrderRanks(root: Name)
      requires Distinct(finished) && InOrder(files, finished, 0)
      requires forall m :: Reaches(Links(files), root, m) ==> m in finished
      ensures Acyclic(files, root)
    {
      hide Reaches;
      var rank := map m | m in files :: IndexOf(finished, m);
      forall m, d | m in files && Reaches(Links(files), root, m) && d in files[m].deps && d in files
        ensures rank[d] < rank[m]
      {
        var k := IndexOf(finished, m);
        IndexIn(finished, m);
        assert d in finished[..k];
        var j :| 0 <= j < k && finished[j] == d;
        IndexIn(finished, d);
      }
      assert Ranked(files, root, rank);
    }
  }

  function IndexOf(s: seq<Name>, m: Name): nat {
    if s == [] || s[0] == m then 0 else 1 + IndexOf(s[1..], m)
  }

  lemma {:induction false} IndexIn(s: seq<Name>, m: Name)
    requires m in s
    ensures IndexOf(s, m) < |s| && s[IndexOf(s, m)] == m
    ensures forall j :: 0 <= j < |s| && s[j] == m ==> IndexOf(s, m) <= j
  {
    if s[0] != m {
      assert m in s[1..];
      IndexIn(s[1..], m);
      assert forall j :: 1 <= j < |s| ==> s[j] == s[1..][j - 1];
    }
  }

  lemma RankOf(files: Files, root: Name) returns (rank: map<Name, nat>)
    requires Acyclic(files, root)
    ensures Ranked(files, root, rank)
  {
    rank :| Ranked(files, root, rank);
  }
}
