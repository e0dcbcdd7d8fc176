/** The tree of configured domains, one label a level from the top down, and what
    it answers: exactly what a scan of the list of inserted names would. */
module DomainMaps {
  import opened Bytes
  import opened Names

  /** The value of a `SubDomain` and everything under it. */
  datatype Trie = Trie(next: map<Label, Trie>, leaf: bool)

  const EMPTY := Trie(map[], false)

  function Child(t: Trie, l: Label): Trie {
    if l in t.next then t.next[l] else EMPTY
  }

  function Inserted(t: Trie, path: seq<Label>): Trie
    requires path != []
    decreases |path|, 0
  {
    t.(next := t.next[path[0] := Lengthened(Child(t, path[0]), path[1..])])
  }

  function Lengthened(t: Trie, path: seq<Label>): Trie
    decreases |path|, 1
  {
    if path == [] then t.(leaf := true) else Inserted(t, path)
  }

  lemma InsertedStep(t: Trie, path: seq<Label>, grown: Trie)
    requires path != [] && grown == Lengthened(Child(t, path[0]), path[1..])
    ensures Inserted(t, path) == t.(next := t.next[path[0] := grown])
  {
  }

  predicate HasPath(t: Trie, path: seq<Label>)
    requires path != []
    decreases |path|
  {
    && path[0] in t.next
    && (t.next[path[0]].leaf || |path| <= 1 || HasPath(t.next[path[0]], path[1..]))
  }

  /** One of two paths leads on where the other ends. */
  predicate OnOneLine(a: seq<Label>, b: seq<Label>) {
    a <= b || b <= a
  }

  lemma OnOneLineTail(a: seq<Label>, b: seq<Label>)
    requires a != [] && b != []
    ensures OnOneLine(a, b) <==> a[0] == b[0] && OnOneLine(a[1..], b[1..])
  {
    assert a == [a[0]] + a[1..] && b == [b[0]] + b[1..];
  }

  lemma {:induction false} EmptyHasNothing(path: seq<Label>)
    requires path != []
    ensures !HasPath(EMPTY, path)
  {
  }

  /** Inserting one path adds the answers on its line, and takes none away. */
  lemma {:induction false} InsertAddsItsLine(t: Trie, path: seq<Label>, q: seq<Label>)
    requires path != [] && q != []
    ensures HasPath(Inserted(t, path), q) <==> HasPath(t, q) || OnOneLine(path, q)
    decreases |path|
  {
    OnOneLineTail(path, q);
    if q[0] == path[0] {
      if |path| > 1 && |q| > 1 {
        InsertAddsItsLine(Child(t, path[0]), path[1..], q[1..]);
      }
    }
  }

  // ----- names

  function Reversed(labels: seq<Label>): (r: seq<Label>)
    ensures |r| == |labels| && forall i | 0 <= i < |r| :: r[i] == labels[|labels| - 1 - i]
  {
    seq(|labels|, i requires 0 <= i < |labels| => labels[|labels| - 1 - i])
  }

  /** Its labels from the top level down. */
  function Path(name: Name): (p: seq<Label>)
    ensures p != []
  {
    Reversed(Split(name))
  }

  /** At least two labels, and a top level that is not empty. */
  predicate IsAccepted(name: Name) {
    |Path(name)| >= 2 && Path(name)[0] != []
  }

  /** That is, a dot, and not at the end. */
  lemma AcceptedIff(name: Name)
    ensures |Split(name)| >= 2 <==> 46 in name
    ensures IsAccepted(name) <==> 46 in name && name[|name| - 1] != 46
  {
    SplitEnds(name);
    assert Path(name)[0] == Split(name)[|Split(name)| - 1];
  }

  lemma {:induction false} SplitEnds(name: Name)
    ensures |Split(name)| >= 2 <==> DOT in name
    ensures Split(name)[|Split(name)| - 1] == [] <==> name == [] || name[|name| - 1] == DOT
  {
    if name != [] {
      SplitEnds(name[1..]);
      assert name == [name[0]] + name[1..];
    }
  }

  function Added(t: Trie, name: Name): Trie {
    if IsAccepted(name) then Inserted(t, Path(name)) else t
  }

  function Filled(names: seq<Name>): Trie {
    if names == [] then EMPTY else Added(Filled(names[..|names| - 1]), names[|names| - 1])
  }

  predicate HasName(t: Trie, name: Name) {
    |Path(name)| >= 2 && HasPath(t, Path(name))
  }

  /** What a scan of the list finds. */
  ghost predicate Scan(names: seq<Name>, q: Name) {
    exists i :: 0 <= i < |names| && IsAccepted(names[i]) && OnOneLine(Path(names[i]), Path(q))
  }

  lemma {:induction false} HasPathIffScan(names: seq<Name>, q: Name)
    ensures HasPath(Filled(names), Path(q)) <==> Scan(names, q)
  {
    if names == [] {
      EmptyHasNothing(Path(q));
    } else {
      var front, last := names[..|names| - 1], names[|names| - 1];
      HasPathIffScan(front, q);
      if IsAccepted(last) {
        InsertAddsItsLine(Filled(front), Path(last), Path(q));
      }
      forall i | 0 <= i < |front|
        ensures front[i] == names[i]
      {
      }
      assert Scan(names, q) <==> Scan(front, q) || (IsAccepted(last) && OnOneLine(Path(last), Path(q)));
    }
  }

  /** The tree agrees with the list. */
  lemma HasIffScan(names: seq<Name>, q: Name)
    ensures HasName(Filled(names), q) <==> |Split(q)| >= 2 && Scan(names, q)
  {
    HasPathIffScan(names, q);
  }

  /** So the order of insertions does not matter, nor how often a name comes. */
  lemma OrderIsIrrelevant(names: seq<Name>, others: seq<Name>, q: Name)
    requires forall d :: d in names <==> d in others
    ensures HasName(Filled(names), q) <==> HasName(Filled(others), q)
  {
    HasIffScan(names, q);
    HasIffScan(others, q);
    ScanFollowsMembers(names, others, q);
    ScanFollowsMembers(others, names, q);
  }

  lemma ScanFollowsMembers(names: seq<Name>, others: seq<Name>, q: Name)
    requires forall d :: d in names ==> d in others
    ensures Scan(names, q) ==> Scan(others, q)
  {
    if Scan(names, q) {
      var i :| 0 <= i < |names| && IsAccepted(names[i]) && OnOneLine(Path(names[i]), Path(q));
      assert names[i] in others;
      var j :| 0 <= j < |others| && others[j] == names[i];
    }
  }

  // ----- what a line of labels means for the names

  predicate EndsWith(a: seq<u8>, b: seq<u8>) {
    |b| <= |a| && a[|a| - |b|..] == b
  }

  /** The same domain, or one lies under the other. */
  predicate Nested(d: Name, q: Name) {
    d == q || EndsWith(q, [DOT] + d) || EndsWith(d, [DOT] + q)
  }

  lemma SplitStep(b: u8, name: Name)
    ensures b == DOT ==> Split([b] + name) == [[]] + Split(name)
    ensures b != DOT ==> Split([b] + name) == [[b] + Split(name)[0]] + Split(name)[1..]
  {
    assert ([b] + name)[1..] == name;
  }

  lemma {:induction false} SplitOfDotted(a: Name, b: Name)
    ensures Split(a + [DOT] + b) == Split(a) + Split(b)
  {
    if a == [] {
      assert a + [DOT] + b == [DOT] + b;
      SplitStep(DOT, b);
    } else {
      SplitOfDotted(a[1..], b);
      SplitLongerOfDotted(a[0], a[1..], b);
      assert a == [a[0]] + a[1..];
    }
  }

  lemma SplitLongerOfDotted(c: u8, a: Name, b: Name)
    requires Split(a + [DOT] + b) == Split(a) + Split(b)
    ensures Split([c] + a + [DOT] + b) == Split([c] + a) + Split(b)
  {
    hide Split;
    assert [c] + a + [DOT] + b == [c] + (a + [DOT] + b);
    SplitStep(c, a);
    SplitStep(c, a + [DOT] + b);
    var first, last := Split(a), Split(b);
    if c == DOT {
      Assoc([[]], first, last);
    } else {
      assert (first + last)[1..] == first[1..] + last;
      Assoc([[c] + first[0]], first[1..], last);
    }
  }

  lemma {:induction false} JoinOfTwo(a: seq<Label>, b: seq<Label>)
    requires a != [] && b != []
    ensures Join(a + b) == Join(a) + [DOT] + Join(b)
  {
    assert (a + b)[1..] == a[1..] + b;
    if |a| > 1 {
      JoinOfTwo(a[1..], b);
      Assoc(a[0] + [DOT], Join(a[1..]), [DOT]);
      Assoc(a[0] + [DOT], Join(a[1..]) + [DOT], Join(b));
    } else {
      assert a[1..] + b == b;
    }
  }

  lemma PrefixReversed(a: seq<Label>, b: seq<Label>)
    ensures Reversed(a) <= Reversed(b) <==> |a| <= |b| && b[|b| - |a|..] == a
  {
    if |a| <= |b| {
      var tail := b[|b| - |a|..];
      if tail == a {
        forall i | 0 <= i < |a|
          ensures Reversed(a)[i] == Reversed(b)[i]
        {
          assert Reversed(b)[i] == tail[|a| - 1 - i];
        }
      }
      if Reversed(a) <= Reversed(b) {
        forall i | 0 <= i < |a|
          ensures tail[i] == a[i]
        {
          assert Reversed(a)[|a| - 1 - i] == Reversed(b)[|a| - 1 - i];
        }
      }
    }
  }

  /** The path of `d` leads on to `q` exactly if `q` is `d` or ends with a dot and `d`. */
  lemma PathLeadsOn(d: Name, q: Name)
    ensures Path(d) <= Path(q) <==> d == q || EndsWith(q, [DOT] + d)
  {
    hide Split, Join;
    var a, b := Split(d), Split(q);
    PrefixReversed(a, b);
    JoinOfSplit(d);
    JoinOfSplit(q);
    if EndsWith(q, [DOT] + d) {
      var x := q[..|q| - |d| - 1];
      assert q == x + [DOT] + d;
      SplitOfDotted(x, d);
    }
    if |a| <= |b| && b[|b| - |a|..] == a && |a| < |b| {
      var x := b[..|b| - |a|];
      assert b == x + a;
      JoinOfTwo(x, a);
      assert q == Join(x) + [DOT] + d;
      assert q[|Join(x)|..] == [DOT] + d;
    }
  }

  /** The answer in terms of the names alone: some accepted name is `q`, lies under
      it or has it under it. */
  lemma HasIffNested(names: seq<Name>, q: Name)
    ensures HasName(Filled(names), q) <==>
            |Split(q)| >= 2 && exists i :: 0 <= i < |names| && IsAccepted(names[i]) && Nested(names[i], q)
  {
    HasIffScan(names, q);
    forall i | 0 <= i < |names|
      ensures OnOneLine(Path(names[i]), Path(q)) <==> Nested(names[i], q)
    {
      PathLeadsOn(names[i], q);
      PathLeadsOn(q, names[i]);
    }
  }

  // ----- the tree in place

  class SubDomain {
    var nextSubdomains: map<Label, SubDomain>
    var leaf: bool
    ghost var repr: set<object>
    ghost var trie: Trie

    ghost predicate Valid()
      reads this, repr
      decreases repr
    {
      && this in repr
      && (forall l | l in nextSubdomains ::
            && nextSubdomains[l] in repr && nextSubdomains[l].repr <= repr && this !in nextSubdomains[l].repr
            && nextSubdomains[l].Valid())
      && AreApart() && IsTrie()
    }

    ghost predicate AreApart()
      reads this, nextSubdomains.Values
    {
      forall l, m | l in nextSubdomains && m in nextSubdomains && l != m ::
        nextSubdomains[l].repr !! nextSubdomains[m].repr
    }

    ghost predicate IsTrie()
      reads this, nextSubdomains.Values
    {
      && trie.leaf == leaf && trie.next.Keys == nextSubdomains.Keys
      && (forall l | l in nextSubdomains :: trie.next[l] == nextSubdomains[l].trie)
    }

    constructor ()
      ensures Valid() && fresh(repr) && trie == EMPTY
    {
      nextSubdomains, leaf := map[], false;
      repr, trie := {this}, EMPTY;
    }

    method GetOrInsert(domain: Label) returns (s: SubDomain)
      requires Valid()
      modifies this
      ensures Valid() && fresh(repr - old(repr))
      ensures domain in nextSubdomains && s == nextSubdomains[domain]
      ensures s.trie == Child(old(trie), domain)
      ensures trie == old(trie).(next := old(trie).next[domain := s.trie])
    {
      if domain !in nextSubdomains {
        var sub := new SubDomain();
        AddChild(domain, sub);
      }
      s := nextSubdomains[domain];
    }

    method AddChild(domain: Label, sub: SubDomain)
      requires Valid() && domain !in nextSubdomains
      requires sub.Valid() && sub.trie == EMPTY && sub.repr !! repr
      modifies this
      ensures Valid() && repr == old(repr) + sub.repr && nextSubdomains == old(nextSubdomains)[domain := sub]
      ensures trie == old(trie).(next := old(trie).next[domain := EMPTY]) && sub.trie == EMPTY
    {
      nextSubdomains := nextSubdomains[domain := sub];
      repr := repr + sub.repr;
      trie := trie.(next := trie.next[domain := EMPTY]);
    }

    method SetLeaf()
      requires Valid()
      modifies this
      ensures Valid() && repr == old(repr) && trie == old(trie).(leaf := true)
    {
      leaf := true;
      trie := trie.(leaf := true);
    }

    ghost function Reprs(): (r: map<Label, set<object>>)
      reads this, nextSubdomains.Values
      ensures r.Keys == nextSubdomains.Keys
      ensures AreApart() ==> forall l, m | l in r && m in r && l != m :: r[l] !! r[m]
    {
      map l | l in nextSubdomains :: nextSubdomains[l].repr
    }

    /** One child has grown by new nodes. */
    lemma StaysApart(domain: Label, before: map<Label, set<object>>, grown: set<object>)
      requires before.Keys == nextSubdomains.Keys && domain in nextSubdomains
      requires forall l, m | l in before && m in before && l != m :: before[l] !! before[m]
      requires forall l | l in before :: grown !! before[l]
      requires nextSubdomains[domain].repr <= before[domain] + grown
      requires forall l | l in nextSubdomains && l != domain :: nextSubdomains[l].repr == before[l]
      ensures AreApart()
    {
    }

    lemma StaysTrie(domain: Label, before: Trie)
      requires domain in nextSubdomains && before.leaf == leaf && before.next.Keys == nextSubdomains.Keys
      requires trie == before.(next := before.next[domain := nextSubdomains[domain].trie])
      requires forall l | l in nextSubdomains && l != domain :: nextSubdomains[l].trie == before.next[l]
      ensures IsTrie()
    {
    }

    lemma GivesTrie()
      requires IsTrie()
      ensures trie.leaf == leaf && trie.next.Keys == nextSubdomains.Keys
      ensures forall l | l in nextSubdomains :: trie.next[l] == nextSubdomains[l].trie
    {
    }

    method Insert(parts: seq<Label>, idx: nat)
      requires Valid() && idx < |parts|
      modifies repr
      ensures Valid() && fresh(repr - old(repr))
      ensures trie == Inserted(old(trie), parts[idx..])
      decreases |parts| - idx, 1
    {
      hide AreApart, IsTrie, Inserted, Lengthened;
      var domain := parts[idx];
      var sub := GetOrInsert(domain);
      ghost var grown := InsertBelow(domain, sub, parts, idx + 1);
      InsertedStep(old(trie), parts[idx..], grown);
    }

    ghost predicate IsChild(s: SubDomain)
      reads this, repr, s, s.repr
    {
      s in repr && s.repr <= repr && this !in s.repr && s.Valid()
    }

    /** The rest of an insertion, and what it makes of the child. */
    method InsertBelow(domain: Label, sub: SubDomain, parts: seq<Label>, next: nat) returns (ghost grown: Trie)
      requires Valid() && domain in nextSubdomains && sub == nextSubdomains[domain]
      requires 0 < next <= |parts|
      modifies repr
      ensures Valid() && fresh(repr - old(repr))
      ensures grown == Lengthened(old(sub.trie), parts[next..])
      ensures trie == old(trie).(next := old(trie).next[domain := grown])
      decreases |parts| - next + 1, 0
    {
      hide AreApart, IsTrie, Inserted;
      ghost var reprs, before, subRepr := Reprs(), trie, sub.repr;
      GivesTrie();
      if |parts| > next {
        sub.Insert(parts, next);
      } else {
        sub.SetLeaf();
      }
      forall l | l in nextSubdomains && l != domain
        ensures IsChild(nextSubdomains[l])
        ensures nextSubdomains[l].repr == reprs[l] && nextSubdomains[l].trie == before.next[l]
      {
        assert reprs[l] !! reprs[domain];
      }
      grown := sub.trie;
      SetChild(domain, sub, reprs, before, subRepr);
    }

    /** The ghost state follows a child that has grown. */
    ghost method SetChild(domain: Label, sub: SubDomain, reprs: map<Label, set<object>>, before: Trie, subRepr: set<object>)
      requires this in repr && domain in nextSubdomains && sub == nextSubdomains[domain]
      requires sub in repr && this !in sub.repr && sub.Valid()
      requires reprs.Keys == nextSubdomains.Keys && trie == before && reprs[domain] == subRepr
      requires before.leaf == leaf && before.next.Keys == nextSubdomains.Keys
      requires forall l, m | l in reprs && m in reprs && l != m :: reprs[l] !! reprs[m]
      requires forall l | l in reprs :: sub.repr - subRepr !! reprs[l]
      requires forall l | l in nextSubdomains && l != domain ::
        && IsChild(nextSubdomains[l])
        && nextSubdomains[l].repr == reprs[l] && nextSubdomains[l].trie == before.next[l]
      modifies this
      ensures Valid() && repr == old(repr) + sub.repr
      ensures trie == before.(next := before.next[domain := sub.trie])
      ensures sub.trie == old(sub.trie)
    {
      hide AreApart, IsTrie;
      repr := repr + sub.repr;
      trie := trie.(next := trie.next[domain := sub.trie]);
      StaysApart(domain, reprs, sub.repr - subRepr);
      StaysTrie(domain, before);
    }

    predicate Has(parts: seq<Label>, idx: nat)
      requires Valid() && idx < |parts|
      reads this, repr
      ensures Has(parts, idx) == HasPath(trie, parts[idx..])
      decreases |parts| - idx
    {
      var domain := parts[idx];
      if domain in nextSubdomains then
        var s := nextSubdomains[domain];
        s.leaf || |parts| <= idx + 1 || s.Has(parts, idx + 1)
      else false
    }
  }

  class DomainMap {
    const root: SubDomain
    ghost var names: seq<Name>

    ghost predicate Valid()
      reads this, root, root.repr
    {
      this !in root.repr && root.Valid() && root.trie == Filled(names)
    }

    constructor ()
      ensures Valid() && names == [] && fresh(root.repr)
    {
      root := new SubDomain();
      names := [];
    }

    method Insert(domain: Name)
      requires Valid()
      modifies this, root.repr
      ensures Valid() && names == old(names) + [domain] && fresh(root.repr - old(root.repr))
    {
      names := names + [domain];
      assert names[..|names| - 1] == old(names);
      var vec := Reversed(Split(domain));
      if |vec| < 2 {
        return;
      }
      var top := vec[0];
      if |top| < 1 {
        return;
      }
      root.Insert(vec, 0);
    }

    /** The tree answers as a scan of everything inserted so far would. */
    method Has(domain: Name) returns (r: bool)
      requires Valid()
      ensures r <==> |Split(domain)| >= 2 &&
                     exists i :: 0 <= i < |names| && IsAccepted(names[i]) && Nested(names[i], domain)
    {
      HasIffNested(names, domain);
      var vec := Reversed(Split(domain));
      if |vec| < 2 {
        return false;
      }
      assert vec[0..] == vec;
      return root.Has(vec, 0);
    }
  }
}
