/** The archive's member list and the re-sort `writestr` applies to it after
    every call: `sorted(filelist, key=lambda zinfo: zinfo.filename)`. Python's
    `sorted` is a stable sort; it is modelled by an insertion sort whose
    result is proved sorted, a permutation, stable, and the only sequence
    with those properties. */
module FileList {
  import opened NameOrder
  import opened Records

  function Key(m: Member): string { m.info.filename }

  /** Ascending by filename. */
  predicate Sorted(s: seq<Member>)
  {
    forall i, j :: 0 <= i < j < |s| ==> NameLe(Key(s[i]), Key(s[j]))
  }

  /** The members of `s` named `name`, in their order in `s`. */
  function Named(s: seq<Member>, name: string): seq<Member>
  {
    if s == [] then []
    else (if Key(s[0]) == name then [s[0]] else []) + Named(s[1..], name)
  }

  /** A name group holds only members of `s` that carry that name. */
  lemma {:induction false} NamedSound(s: seq<Member>, name: string, m: Member)
    requires m in Named(s, name)
    ensures m in s && Key(m) == name
  {
    if Key(s[0]) != name || m != s[0] {
      NamedSound(s[1..], name, m);
    }
  }

  /** Places `m` after every member whose name is at most its own. */
  function Insert(s: seq<Member>, m: Member): (r: seq<Member>)
    ensures multiset(r) == multiset(s) + multiset{m}
  {
    if s == [] then [m]
    else if NameLe(Key(s[0]), Key(m)) then
      assert s == [s[0]] + s[1..];
      [s[0]] + Insert(s[1..], m)
    else [m] + s
  }

  /** Python's `sorted` by filename. */
  function SortByName(s: seq<Member>): (r: seq<Member>)
    ensures multiset(r) == multiset(s)
    ensures Sorted(r)
  {
    if s == [] then []
    else
      var init, last := s[..|s| - 1], s[|s| - 1];
      assert s == init + [last];
      var t := SortByName(init);
      InsertSorted(t, last);
      Insert(t, last)
  }

  /** Every name in `s` is at least `bound`. */
  predicate AllAtLeast(s: seq<Member>, bound: string)
  {
    forall k :: 0 <= k < |s| ==> NameLe(bound, Key(s[k]))
  }

  lemma SortedCons(x: Member, s: seq<Member>)
    requires Sorted(s) && AllAtLeast(s, Key(x))
    ensures Sorted([x] + s)
  {
    forall i, j | 0 <= i < j < |[x] + s|
      ensures NameLe(Key(([x] + s)[i]), Key(([x] + s)[j]))
    {
      assert ([x] + s)[j] == s[j - 1];
      if i > 0 {
        assert ([x] + s)[i] == s[i - 1];
      }
    }
  }

  /** Inserting a member that is not below `bound` keeps every name at least `bound`. */
  lemma {:induction false} InsertAtLeast(s: seq<Member>, m: Member, bound: string)
    requires AllAtLeast(s, bound) && NameLe(bound, Key(m))
    ensures AllAtLeast(Insert(s, m), bound)
  {
    if s != [] && NameLe(Key(s[0]), Key(m)) {
      InsertAtLeast(s[1..], m, bound);
      var t := Insert(s[1..], m);
      assert forall k :: 0 < k < |t| + 1 ==> ([s[0]] + t)[k] == t[k - 1];
    }
  }

  lemma {:induction false} InsertSorted(s: seq<Member>, m: Member)
    requires Sorted(s)
    ensures Sorted(Insert(s, m))
  {
    if s == [] {
    } else if NameLe(Key(s[0]), Key(m)) {
      SortedTail(s);
      InsertSorted(s[1..], m);
      assert AllAtLeast(s[1..], Key(s[0])) by {
        forall k | 0 <= k < |s[1..]|
          ensures NameLe(Key(s[0]), Key(s[1..][k]))
        {
          assert s[1..][k] == s[k + 1];
        }
      }
      InsertAtLeast(s[1..], m, Key(s[0]));
      SortedCons(s[0], Insert(s[1..], m));
    } else {
      NameLeTotal(Key(s[0]), Key(m));
      forall j | 0 <= j < |s|
        ensures NameLe(Key(m), Key(s[j]))
      {
        if j > 0 {
          NameLeTransitive(Key(m), Key(s[0]), Key(s[j]));
        }
      }
      SortedCons(m, s);
    }
  }

  lemma SortedTail(s: seq<Member>)
    requires Sorted(s) && s != []
    ensures Sorted(s[1..])
  {
    forall i, j | 0 <= i < j < |s[1..]|
      ensures NameLe(Key(s[1..][i]), Key(s[1..][j]))
    {
      assert s[1..][i] == s[i + 1] && s[1..][j] == s[j + 1];
    }
  }

  lemma {:induction false} NamedAppend(s: seq<Member>, m: Member, name: string)
    ensures Named(s + [m], name) == Named(s, name) + (if Key(m) == name then [m] else [])
  {
    if s == [] {
      assert [m][1..] == [];
    } else {
      assert (s + [m])[1..] == s[1..] + [m];
      NamedAppend(s[1..], m, name);
    }
  }

  lemma {:induction false} NamedPrepend(m: Member, s: seq<Member>, name: string)
    ensures Named([m] + s, name) == (if Key(m) == name then [m] else []) + Named(s, name)
  {
    assert ([m] + s)[1..] == s;
  }

  /** Every member of `s` named `name` appears in `Named(s, name)`. */
  lemma {:induction false} NamedComplete(s: seq<Member>, m: Member)
    requires m in s
    ensures m in Named(s, Key(m))
  {
    if s[0] != m {
      NamedComplete(s[1..], m);
    }
  }

  /** Inserting adds `m` at the end of its own name group and changes no
      other group: members with equal names keep their arrival order. */
  lemma {:induction false} InsertNamed(s: seq<Member>, m: Member, name: string)
    requires Sorted(s)
    ensures Named(Insert(s, m), name) == Named(s, name) + (if Key(m) == name then [m] else [])
  {
    if s == [] {
      NamedPrepend(m, [], name);
    } else if NameLe(Key(s[0]), Key(m)) {
      var head := if Key(s[0]) == name then [s[0]] else [];
      var tail := if Key(m) == name then [m] else [];
      SortedTail(s);
      calc {
        Named(Insert(s, m), name);
        Named([s[0]] + Insert(s[1..], m), name);
        { NamedPrepend(s[0], Insert(s[1..], m), name); }
        head + Named(Insert(s[1..], m), name);
        { InsertNamed(s[1..], m, name); }
        head + (Named(s[1..], name) + tail);
        (head + Named(s[1..], name)) + tail;
        { assert s == [s[0]] + s[1..]; NamedPrepend(s[0], s[1..], name); }
        Named(s, name) + tail;
      }
    } else {
      NamedPrepend(m, s, name);
      if Key(m) == name {
        NamedEmptyBelow(s, name);
      }
    }
  }

  /** No member of a sorted list is named `name` when its first name already
      sorts after `name`. */
  lemma {:induction false} NamedEmptyBelow(s: seq<Member>, name: string)
    requires Sorted(s) && s != [] && !NameLe(Key(s[0]), name)
    ensures Named(s, name) == []
  {
    NameLeReflexive(name);
    if |s| > 1 {
      if NameLe(Key(s[1]), name) {
        NameLeTransitive(Key(s[0]), Key(s[1]), name);
      }
      SortedTail(s);
      NamedEmptyBelow(s[1..], name);
    }
  }

  /** Stability: re-sorting keeps the relative order of equally named members. */
  lemma {:induction false} SortByNameStable(s: seq<Member>, name: string)
    ensures Named(SortByName(s), name) == Named(s, name)
  {
    if s != [] {
      var init, last := s[..|s| - 1], s[|s| - 1];
      assert s == init + [last];
      SortByNameStable(init, name);
      InsertNamed(SortByName(init), last, name);
      NamedAppend(init, last, name);
    }
  }

  /** A sorted sequence is fixed by its name groups: two sorted sequences with
      the same members under every name, in the same order, are equal. */
  lemma {:induction false} SortedDeterminedByGroups(a: seq<Member>, b: seq<Member>)
    requires Sorted(a) && Sorted(b)
    requires forall name :: Named(a, name) == Named(b, name)
    ensures a == b
  {
    if a == [] && b != [] {
      NamedComplete(b, b[0]);
      NamedSound(a, Key(b[0]), b[0]);
    } else if a != [] && b == [] {
      NamedComplete(a, a[0]);
      NamedSound(b, Key(a[0]), a[0]);
    } else if a != [] {
      var x, y := a[0], b[0];
      SameFirstName(a, b);
      assert a == [x] + a[1..] && b == [y] + b[1..];
      NamedPrepend(x, a[1..], Key(x));
      NamedPrepend(y, b[1..], Key(x));
      assert Named(a, Key(x))[0] == x && Named(b, Key(x))[0] == y;
      assert x == y;
      forall name
        ensures Named(a[1..], name) == Named(b[1..], name)
      {
        NamedPrepend(x, a[1..], name);
        NamedPrepend(y, b[1..], name);
        var head := if Key(x) == name then [x] else [];
        assert Named(a[1..], name) == (head + Named(a[1..], name))[|head|..];
        assert Named(b[1..], name) == (head + Named(b[1..], name))[|head|..];
      }
      SortedTail(a);
      SortedTail(b);
      SortedDeterminedByGroups(a[1..], b[1..]);
    }
  }

  /** Two sorted lists with the same name groups start with the same name. */
  lemma SameFirstName(a: seq<Member>, b: seq<Member>)
    requires Sorted(a) && Sorted(b) && a != [] && b != []
    requires forall name :: Named(a, name) == Named(b, name)
    ensures Key(a[0]) == Key(b[0])
  {
    var x, y := a[0], b[0];
    NamedComplete(b, y);
    NamedSound(a, Key(y), y);
    var i :| 0 <= i < |a| && a[i] == y;
    NamedComplete(a, x);
    NamedSound(b, Key(x), x);
    var j :| 0 <= j < |b| && b[j] == x;
    NameLeReflexive(Key(x));
    NameLeReflexive(Key(y));
    assert NameLe(Key(x), Key(y)) by {
      assert i == 0 || NameLe(Key(a[0]), Key(a[i]));
    }
    assert NameLe(Key(y), Key(x)) by {
      assert j == 0 || NameLe(Key(b[0]), Key(b[j]));
    }
    NameLeAntisymmetric(Key(x), Key(y));
  }

  /** `SortByName` is Python's stable sort: any sorted arrangement that keeps
      every name group in its original order is exactly `SortByName(s)`. */
  lemma SortByNameUnique(s: seq<Member>, r: seq<Member>)
    requires Sorted(r)
    requires forall name :: Named(r, name) == Named(s, name)
    ensures r == SortByName(s)
  {
    forall name
      ensures Named(r, name) == Named(SortByName(s), name)
    {
      SortByNameStable(s, name);
    }
    SortedDeterminedByGroups(r, SortByName(s));
  }

  /** Re-sorting a list that is already sorted leaves it as it is. */
  lemma SortByNameOfSorted(s: seq<Member>)
    requires Sorted(s)
    ensures SortByName(s) == s
  {
    SortByNameUnique(s, s);
  }

  /** What one `writestr` does to a sorted `filelist`: appending and
      re-sorting is inserting the new member after its equally named peers. */
  lemma AppendThenSort(s: seq<Member>, m: Member)
    requires Sorted(s)
    ensures SortByName(s + [m]) == Insert(s, m)
  {
    assert (s + [m])[..|s|] == s;
    SortByNameOfSorted(s);
  }

  /** Re-sorting after every call gives the same list as one sort of all the
      members in arrival order. */
  lemma ResortAfterAppend(w: seq<Member>, m: Member)
    ensures SortByName(SortByName(w) + [m]) == SortByName(w + [m])
  {
    AppendThenSort(SortByName(w), m);
    assert (w + [m])[..|w|] == w;
  }

  predicate DistinctNames(s: seq<Member>)
  {
    forall i, j :: 0 <= i < j < |s| ==> Key(s[i]) != Key(s[j])
  }

  /** With distinct names, each name group has at most one member. */
  lemma {:induction false} NamedOfDistinct(s: seq<Member>, name: string)
    requires DistinctNames(s)
    ensures |Named(s, name)| <= 1
  {
    if s != [] {
      NamedOfDistinct(s[1..], name);
      if Key(s[0]) == name && Named(s[1..], name) != [] {
        var x := Named(s[1..], name)[0];
        NamedSound(s[1..], name, x);
      }
    }
  }

  /** With distinct names, a name group is determined by which members are
      present, whatever their order. */
  lemma SameGroupsOfDistinct(s: seq<Member>, t: seq<Member>, name: string)
    requires DistinctNames(s) && DistinctNames(t)
    requires multiset(s) == multiset(t)
    ensures Named(s, name) == Named(t, name)
  {
    if Named(s, name) != [] {
      var x := Named(s, name)[0];
      NamedSound(s, name, x);
      assert x in multiset(t);
      GroupOfDistinct(s, x);
      GroupOfDistinct(t, x);
    } else if Named(t, name) != [] {
      var x := Named(t, name)[0];
      NamedSound(t, name, x);
      assert x in multiset(s);
      GroupOfDistinct(s, x);
      GroupOfDistinct(t, x);
    }
  }

  /** With distinct names, a member's name group is that member alone. */
  lemma GroupOfDistinct(s: seq<Member>, x: Member)
    requires DistinctNames(s) && x in s
    ensures Named(s, Key(x)) == [x]
  {
    NamedOfDistinct(s, Key(x));
    NamedComplete(s, x);
  }

  /** Call order does not matter: for members with distinct names, any two
      arrival orders of the same members end in the same sorted `filelist`. */
  lemma OrderIndependent(s: seq<Member>, t: seq<Member>)
    requires DistinctNames(s) && DistinctNames(t)
    requires multiset(s) == multiset(t)
    ensures SortByName(s) == SortByName(t)
  {
    forall name
      ensures Named(SortByName(s), name) == Named(SortByName(t), name)
    {
      SortByNameStable(s, name);
      SortByNameStable(t, name);
      SameGroupsOfDistinct(s, t, name);
    }
    SortedDeterminedByGroups(SortByName(s), SortByName(t));
  }
}
