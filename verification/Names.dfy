/** Package names in the order `sorted` lists them. */
module Names {

  /** Code-point order on names; a proper prefix comes first. */
  predicate Before(a: string, b: string) {
    if a == [] then b != []
    else b != [] && (a[0] < b[0] || (a[0] == b[0] && Before(a[1..], b[1..])))
  }

  /** Exactly one of: equal, before, after. */
  lemma {:induction false} BeforeTotal(a: string, b: string)
    ensures a == b || Before(a, b) || Before(b, a)
    ensures Before(a, b) ==> !Before(b, a) && a != b
    decreases |a|
  {
    if a != [] && b != [] {
      BeforeTotal(a[1..], b[1..]);
      if a[0] == b[0] && a[1..] == b[1..] {
        assert a == [a[0]] + a[1..] && b == [b[0]] + b[1..];
      }
    }
  }

  lemma {:induction false} BeforeTransitive(a: string, b: string, c: string)
    requires Before(a, b) && Before(b, c)
    ensures Before(a, c)
    decreases |a|
  {
    if a != [] && a[0] == b[0] == c[0] {
      BeforeTransitive(a[1..], b[1..], c[1..]);
    }
  }

  /** The first place where two names differ decides, or the shorter one's end. */
  predicate DiffersAt(a: string, b: string, k: nat) {
    && k <= |a| && k <= |b| && a[..k] == b[..k]
    && (if k == |a| then k < |b| else k < |b| && a[k] < b[k])
  }

  lemma PrefixAgrees(a: string, b: string, k: nat)
    requires k <= |a| && k <= |b| && a[..k] == b[..k]
    ensures forall i | 0 <= i < k :: a[i] == b[i]
  {
    forall i | 0 <= i < k ensures a[i] == b[i] {
      assert a[..k][i] == b[..k][i];
    }
  }

  lemma {:induction false} BeforeMeans(a: string, b: string)
    ensures Before(a, b) <==> exists k: nat :: DiffersAt(a, b, k)
    decreases |a|
  {
    if a == [] || b == [] || a[0] != b[0] {
      assert Before(a, b) ==> DiffersAt(a, b, 0);
      if k: nat :| DiffersAt(a, b, k) {
        PrefixAgrees(a, b, k);
      }
    } else {
      BeforeMeans(a[1..], b[1..]);
      if k: nat :| DiffersAt(a[1..], b[1..], k) {
        assert a[..k + 1] == [a[0]] + a[1..][..k] && b[..k + 1] == [b[0]] + b[1..][..k];
        assert DiffersAt(a, b, k + 1);
      }
      if k: nat :| DiffersAt(a, b, k) {
        assert k > 0 && a[1..][..k - 1] == a[..k][1..] && b[1..][..k - 1] == b[..k][1..];
        assert DiffersAt(a[1..], b[1..], k - 1);
      }
    }
  }

  predicate Ascending(names: seq<string>) {
    forall i, j | 0 <= i < j < |names| :: Before(names[i], names[j])
  }

  predicate Distinct(names: seq<string>) {
    forall i, j | 0 <= i < j < |names| :: names[i] != names[j]
  }

  /** Every name of the set once, in ascending order. */
  method Sorted(names: set<string>) returns (list: seq<string>)
    ensures Ascending(list) && Distinct(list)
    ensures forall name :: name in list <==> name in names
    ensures list == SortedList(names)
  {
    list := [];
    var rest := names;
    while rest != {}
      invariant rest <= names && Ascending(list)
      invariant forall name :: name in list <==> name in names - rest
      decreases rest
    {
      var name :| name in rest;
      var k := 0;
      while k < |list| && Before(list[k], name)
        invariant k <= |list| && forall i | 0 <= i < k :: Before(list[i], name)
      {
        k := k + 1;
      }
      forall i | k <= i < |list| ensures Before(name, list[i]) {
        BeforeTotal(name, list[k]);
        assert list[k] in list;
        if i > k { BeforeTransitive(name, list[k], list[i]); }
      }
      ghost var before := list;
      list := list[..k] + [name] + list[k..];
      rest := rest - {name};
      forall n ensures n in list <==> n in before || n == name {
        assert before == before[..k] + before[k..];
      }
    }
    forall i, j | 0 <= i < j < |list| ensures list[i] != list[j] {
      BeforeTotal(list[i], list[j]);
    }
    AscendingUnique(list, SortedList(names));
  }

  /** The ascending list of a set of names: there is only one. */
  ghost function SortedList(names: set<string>): (list: seq<string>)
    ensures Ascending(list) && Distinct(list) && |list| == |names|
    ensures forall name :: name in list <==> name in names
  {
    if names == {} then []
    else
      var first := First(names);
      var rest := SortedList(names - {first});
      [first] + rest
  }

  ghost function First(names: set<string>): (first: string)
    requires names != {}
    ensures first in names && forall name | name in names :: name == first || Before(first, name)
  {
    FirstExists(names);
    var first :| first in names && forall name | name in names :: name == first || Before(first, name);
    first
  }

  lemma {:induction false} FirstExists(names: set<string>)
    requires names != {}
    ensures exists first :: first in names && forall name | name in names :: name == first || Before(first, name)
  {
    var some :| some in names;
    var rest := names - {some};
    if rest == {} {
      assert names == rest + {some};
      assert forall name | name in names :: name == some;
    } else {
      FirstExists(rest);
      var first :| first in rest && forall name | name in rest :: name == first || Before(first, name);
      BeforeTotal(some, first);
      var least := if Before(some, first) then some else first;
      forall name | name in names ensures name == least || Before(least, name) {
        if name != some && least == some && name != first {
          BeforeTransitive(some, first, name);
        }
      }
    }
  }

  lemma TailMembers(a: seq<string>)
    requires Ascending(a) && a != []
    ensures forall name :: name in a[1..] <==> name in a && name != a[0]
  {
    BeforeTotal(a[0], a[0]);
    forall name | name in a[1..] ensures name != a[0] {
      var i :| 0 < i < |a| && a[i] == name;
      BeforeTotal(a[0], a[i]);
    }
    assert a == [a[0]] + a[1..];
  }

  lemma {:induction false} AscendingUnique(a: seq<string>, b: seq<string>)
    requires Ascending(a) && Ascending(b) && forall name :: name in a <==> name in b
    ensures a == b
    decreases |a|
  {
    if b != [] { assert b[0] in b; }
    if a != [] {
      assert a[0] in a && a[0] in b;
      assert b[0] in b && b[0] in a;
      BeforeTotal(a[0], b[0]);
      assert a[0] == b[0];
      TailMembers(a);
      TailMembers(b);
      AscendingUnique(a[1..], b[1..]);
      assert a == [a[0]] + a[1..] && b == [b[0]] + b[1..];
    }
  }
}
