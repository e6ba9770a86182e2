/** The order of `ORDER BY name ASC`, assuming the application's SQLite
    database and its default (binary) collation: strings compare character by
    character by code point, and a proper prefix comes first. */
module NameOrder {
  import opened Models

  predicate NameLe(a: string, b: string)
    decreases |a|
  {
    if |a| == 0 then true
    else if |b| == 0 then false
    else if a[0] != b[0] then a[0] < b[0]
    else NameLe(a[1..], b[1..])
  }

  lemma {:induction false} NameLeReflexive(a: string)
    ensures NameLe(a, a)
    decreases |a|
  {
    if |a| > 0 {
      NameLeReflexive(a[1..]);
    }
  }

  lemma {:induction false} NameLeTotal(a: string, b: string)
    ensures NameLe(a, b) || NameLe(b, a)
    decreases |a|
  {
    if |a| > 0 && |b| > 0 && a[0] == b[0] {
      NameLeTotal(a[1..], b[1..]);
    }
  }

  lemma {:induction false} NameLeTransitive(a: string, b: string, c: string)
    requires NameLe(a, b) && NameLe(b, c)
    ensures NameLe(a, c)
    decreases |a|
  {
    if |a| > 0 && |b| > 0 && |c| > 0 && a[0] == b[0] && b[0] == c[0] {
      NameLeTransitive(a[1..], b[1..], c[1..]);
    }
  }

  /** Two names that order both ways are the same name. */
  lemma {:induction false} NameLeAntisymmetric(a: string, b: string)
    requires NameLe(a, b) && NameLe(b, a)
    ensures a == b
    decreases |a|
  {
    if |a| > 0 {
      NameLeAntisymmetric(a[1..], b[1..]);
      assert a == [a[0]] + a[1..] && b == [b[0]] + b[1..];
    }
  }

  /** A non-empty set has a member. Stated on its own so that `:|` can pick
      one without the verifier deriving it from inconsistent-looking facts. */
  lemma HasMember(ids: set<int>)
    requires ids != {}
    ensures exists k :: k in ids
  {
    if forall k :: k !in ids {
      assert false;
    }
  }

  /** Key `k` names a child whose name is first among those of `ids`. */
  ghost predicate IsFirst(k: int, ids: set<int>, cs: map<int, Child>)
    requires ids <= cs.Keys
  {
    k in ids && forall j :: j in ids ==> NameLe(cs[k].name, cs[j].name)
  }

  lemma {:induction false} FirstExists(ids: set<int>, cs: map<int, Child>)
    requires ids != {} && ids <= cs.Keys
    ensures exists k :: IsFirst(k, ids, cs)
    decreases |ids|
  {
    HasMember(ids);
    var x :| x in ids;
    if ids == {x} {
      NameLeReflexive(cs[x].name);
      assert IsFirst(x, ids, cs);
    } else {
      var rest := ids - {x};
      FirstExists(rest, cs);
      var m :| IsFirst(m, rest, cs);
      NameLeTotal(cs[x].name, cs[m].name);
      if NameLe(cs[m].name, cs[x].name) {
        assert IsFirst(m, ids, cs);
      } else {
        NameLeReflexive(cs[x].name);
        forall j | j in ids
          ensures NameLe(cs[x].name, cs[j].name)
        {
          if j != x {
            NameLeTransitive(cs[x].name, cs[m].name, cs[j].name);
          }
        }
        assert IsFirst(x, ids, cs);
      }
    }
  }

  /** The keys of `ids` in ascending order of their children's names, each
      exactly once; children of equal name come in an unspecified order. */
  ghost function SortByName(ids: set<int>, cs: map<int, Child>): (s: seq<int>)
    requires ids <= cs.Keys
    ensures |s| == |ids|
    ensures forall i :: 0 <= i < |s| ==> s[i] in ids
    ensures forall k :: k in ids ==> k in s
    ensures forall i, j :: 0 <= i < j < |s| ==> s[i] != s[j]
    ensures forall i, j :: 0 <= i < j < |s| ==> NameLe(cs[s[i]].name, cs[s[j]].name)
    decreases |ids|
  {
    if ids == {} then []
    else
      FirstExists(ids, cs);
      var k :| IsFirst(k, ids, cs);
      [k] + SortByName(ids - {k}, cs)
  }
}
