/** Facts about the store itself, a map from user ID to record, independent
    of the handlers that change it. */
module UserStore {
  import opened Models

  /** The invariant every write keeps: each record is filed under its own ID. */
  ghost predicate KeysMatchIds(m: map<string, User>) {
    forall k :: k in m ==> m[k].id == k
  }

  /** Some key of a non-empty map. */
  ghost function AnyKey(m: map<string, User>): (k: string)
    requires m != map[]
    ensures k in m
  {
    var k :| k in m; k
  }

  /** The records of `m`, counted once per entry and in no particular order:
      what a traversal of the map can produce, whatever order it visits the
      keys in. */
  ghost function Entries(m: map<string, User>): multiset<User>
    decreases |m|
  {
    if m == map[] then multiset{}
    else
      var k := AnyKey(m);
      assert m.Keys - {k} < m.Keys;
      multiset{m[k]} + Entries(m - {k})
  }

  /** Any entry may be taken out first: the multiset does not depend on the
      key the definition happens to pick. */
  lemma {:induction false} EntriesRemove(m: map<string, User>, k: string)
    requires k in m
    ensures Entries(m) == multiset{m[k]} + Entries(m - {k})
    decreases |m|
  {
    var j := AnyKey(m);
    if j != k {
      var withoutJ, withoutK := m - {j}, m - {k};
      var rest := m - {j, k};
      assert withoutJ.Keys - {k} < withoutJ.Keys;
      assert withoutJ - {k} == rest;
      assert withoutJ[k] == m[k];
      EntriesRemove(withoutJ, k);
      assert withoutK.Keys - {j} < withoutK.Keys;
      assert withoutK - {j} == rest;
      assert withoutK[j] == m[j];
      EntriesRemove(withoutK, j);
    }
  }

  /** One element per entry. */
  lemma {:induction false} EntriesSize(m: map<string, User>)
    ensures |Entries(m)| == |m|
    decreases |m|
  {
    if m != map[] {
      var k :| k in m;
      EntriesRemove(m, k);
      assert m.Keys - {k} < m.Keys;
      EntriesSize(m - {k});
    }
  }

  /** A record is listed exactly when some key maps to it. */
  lemma {:induction false} EntriesMembership(m: map<string, User>, u: User)
    ensures u in Entries(m) <==> u in m.Values
    decreases |m|
  {
    if m != map[] {
      var k :| k in m;
      EntriesRemove(m, k);
      assert m.Keys - {k} < m.Keys;
      EntriesMembership(m - {k}, u);
      assert m.Values == (m - {k}).Values + {m[k]} by {
        forall v | v in m.Values ensures v in (m - {k}).Values + {m[k]} {
          var j :| j in m && m[j] == v;
          if j != k { assert (m - {k})[j] == v; }
        }
      }
    }
  }

  /** Under the invariant no record is listed twice. */
  lemma {:induction false} EntriesDistinct(m: map<string, User>, u: User)
    requires KeysMatchIds(m)
    ensures Entries(m)[u] <= 1
    decreases |m|
  {
    if m != map[] {
      var k :| k in m;
      EntriesRemove(m, k);
      assert m.Keys - {k} < m.Keys;
      EntriesDistinct(m - {k}, u);
      if u == m[k] {
        EntriesMembership(m - {k}, u);
        assert u !in (m - {k}).Values;
      }
    }
  }
}
