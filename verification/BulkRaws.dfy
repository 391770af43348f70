/**
 What an insertion leaves in the table, said about the rows as they are handed in
 (monitor_app/db/bulk.py): by their places in the list, without the steps that prepare,
 group or merge them.
 */
module BulkRaws {
  import opened Options
  import opened BulkSpec

  /** How many of the first `n` rows leave their key to the database. */
  function Keyless(raws: seq<Raw>, n: nat): (r: nat)
    requires n <= |raws|
    ensures r <= n
  {
    if n == 0 then 0 else Keyless(raws, n - 1) + if raws[n - 1].key.Given? then 0 else 1
  }

  /** The key of a row: its own, or the next of those the database gave out. */
  function KeyAt(raws: seq<Raw>, given: seq<int>, i: nat): Option<int>
    requires i < |raws|
  {
    if raws[i].key.Given? then Some(raws[i].key.key)
    else if Keyless(raws, i) < |given| then Some(given[Keyless(raws, i)])
    else None
  }

  /** Row `i` is one of the first `n` rows and has this key. */
  predicate Has(raws: seq<Raw>, given: seq<int>, n: nat, i: nat, k: int) {
    i < n <= |raws| && KeyAt(raws, given, i) == Some(k)
  }

  /** One of the first `n` rows has this key. */
  predicate Mentioned(raws: seq<Raw>, given: seq<int>, n: nat, k: int) {
    exists i: nat | i < n :: Has(raws, given, n, i, k)
  }

  /** Row `i` is the last of the first `n` rows that says something about this cell. */
  predicate LastToSet(raws: seq<Raw>, given: seq<int>, n: nat, i: nat, k: int, c: string) {
    && Has(raws, given, n, i, k) && c in raws[i].cells
    && forall j: nat :: i < j < n && Has(raws, given, n, j, k) ==> c !in raws[j].cells
  }

  predicate NobodySets(raws: seq<Raw>, given: seq<int>, n: nat, k: int, c: string) {
    forall j: nat :: j < n && Has(raws, given, n, j, k) ==> c !in raws[j].cells
  }

  /** Row `i` is the first with this key. */
  predicate FirstWith(raws: seq<Raw>, given: seq<int>, n: nat, i: nat, k: int) {
    Has(raws, given, n, i, k) && !Mentioned(raws, given, i, k)
  }

  /** The table holds the keys it held and those of the rows. */
  ghost predicate KeysAre(t: Table, raws: seq<Raw>, given: seq<int>, n: nat, u: Table) {
    forall k :: k in u <==> k in t || Mentioned(raws, given, n, k)
  }

  /** The first one stays: what was there, or the first row with the key. */
  ghost predicate FirstStays(t: Table, raws: seq<Raw>, given: seq<int>, n: nat, u: Table) {
    && (forall k :: k in t && k in u ==> u[k] == t[k])
    && forall k, i: nat :: FirstWith(raws, given, n, i, k) && k !in t && k in u ==> u[k] == raws[i].cells
  }

  /** The last row that sets a cell wins; what no row sets is as it was. */
  ghost predicate LastWins(t: Table, raws: seq<Raw>, given: seq<int>, n: nat, u: Table) {
    && (forall k, c, i: nat :: LastToSet(raws, given, n, i, k, c) && k in u ==>
          c in u[k] && u[k][c] == raws[i].cells[c])
    && forall k, c :: NobodySets(raws, given, n, k, c) && k in u ==>
         && (c in u[k] <==> k in t && c in t[k])
         && (c in u[k] ==> u[k][c] == t[k][c])
  }

  /** The key of row `i` was not there before, and no earlier row has it. */
  predicate IsNew(t: Table, raws: seq<Raw>, given: seq<int>, i: nat)
    requires i < |raws|
  {
    KeyAt(raws, given, i).Some?
    && KeyAt(raws, given, i).value !in t && !Mentioned(raws, given, i, KeyAt(raws, given, i).value)
  }

  /** Keys that the database gives out are new; if conflicts are errors, all keys are. */
  ghost predicate NewWhereNeeded(mode: OnConflict, t: Table, raws: seq<Raw>, given: seq<int>, n: nat) {
    forall i: nat :: i < n <= |raws| && (mode.Error? || !raws[i].key.Given?) ==> IsNew(t, raws, given, i)
  }

  /**
   What the insertion of the first `n` rows means: `given` are the keys that the database
   gave out for the rows without one, in the order of these rows.
   */
  ghost predicate Inserts(mode: OnConflict, t: Table, raws: seq<Raw>, given: seq<int>, n: nat, u: Table) {
    && KeysAre(t, raws, given, n, u)
    && NewWhereNeeded(mode, t, raws, given, n)
    && (mode.Update? ==> LastWins(t, raws, given, n, u))
    && (!mode.Update? ==> FirstStays(t, raws, given, n, u))
  }

  lemma {:induction false} UnkeyedIsKeyless(raws: seq<Raw>, n: nat)
    requires n <= |raws|
    ensures Unkeyed(Prepared(raws)[..n]) == Keyless(raws, n)
  {
    if n > 0 {
      assert Prepared(raws)[..n][..n - 1] == Prepared(raws)[..n - 1];
      UnkeyedIsKeyless(raws, n - 1);
    }
  }

  lemma {:induction false} MentionedNext(raws: seq<Raw>, given: seq<int>, n: nat, k: int)
    requires n < |raws|
    ensures Mentioned(raws, given, n + 1, k) <==> Mentioned(raws, given, n, k) || KeyAt(raws, given, n) == Some(k)
  {
    hide KeyAt;
    if Mentioned(raws, given, n, k) {
      var i: nat :| i < n && Has(raws, given, n, i, k);
      assert Has(raws, given, n + 1, i, k);
    }
    if KeyAt(raws, given, n) == Some(k) {
      assert Has(raws, given, n + 1, n, k);
    }
    if Mentioned(raws, given, n + 1, k) {
      var i: nat :| i < n + 1 && Has(raws, given, n + 1, i, k);
      assert i < n ==> Has(raws, given, n, i, k);
    }
  }

  lemma {:induction false} HasNext(raws: seq<Raw>, given: seq<int>, n: nat)
    requires n < |raws|
    ensures forall i: nat, k :: Has(raws, given, n + 1, i, k) <==>
      Has(raws, given, n, i, k) || (i == n && KeyAt(raws, given, n) == Some(k))
  {
    hide KeyAt;
  }

  lemma {:induction false} KeysNext(t: Table, raws: seq<Raw>, given: seq<int>, n: nat, u: Table, k: int, u': Table)
    requires n < |raws| && KeyAt(raws, given, n) == Some(k)
    requires KeysAre(t, raws, given, n, u) && u'.Keys == u.Keys + {k}
    ensures KeysAre(t, raws, given, n + 1, u')
  {
    hide KeyAt, Mentioned;
    forall l ensures l in u' <==> l in t || Mentioned(raws, given, n + 1, l) {
      MentionedNext(raws, given, n, l);
      assert l in u' <==> l in u || l == k;
    }
  }

  lemma {:induction false} FirstNext(mode: OnConflict, t: Table, raws: seq<Raw>, given: seq<int>, n: nat, u: Table,
                                     k: int)
    requires n < |raws| && KeyAt(raws, given, n) == Some(k) && !mode.Update?
    requires KeysAre(t, raws, given, n, u) && FirstStays(t, raws, given, n, u)
    ensures FirstStays(t, raws, given, n + 1, One(mode, u, k, raws[n].cells))
  {
    hide KeyAt, Mentioned;
    HasNext(raws, given, n);
    var u' := One(mode, u, k, raws[n].cells);
    forall l, i: nat | FirstWith(raws, given, n + 1, i, l) && l !in t && l in u' ensures u'[l] == raws[i].cells {
      if i < n {
        assert FirstWith(raws, given, n, i, l);
        MentionedBy(raws, given, n, i, l);
      }
    }
  }

  lemma {:induction false} MentionedBy(raws: seq<Raw>, given: seq<int>, n: nat, i: nat, k: int)
    requires Has(raws, given, n, i, k)
    ensures Mentioned(raws, given, n, k)
  {
  }

  lemma {:induction false} LastNext(t: Table, raws: seq<Raw>, given: seq<int>, n: nat, u: Table, k: int)
    requires n < |raws| && KeyAt(raws, given, n) == Some(k)
    requires KeysAre(t, raws, given, n, u) && LastWins(t, raws, given, n, u)
    ensures LastWins(t, raws, given, n + 1, One(Update, u, k, raws[n].cells))
  {
    hide KeyAt, Mentioned;
    HasNext(raws, given, n);
    var u' := One(Update, u, k, raws[n].cells);
    forall l, c, i: nat | LastToSet(raws, given, n + 1, i, l, c) && l in u'
      ensures c in u'[l] && u'[l][c] == raws[i].cells[c]
    {
      if i < n {
        assert LastToSet(raws, given, n, i, l, c);
        MentionedBy(raws, given, n, i, l);
      }
    }
    forall l, c | NobodySets(raws, given, n + 1, l, c) && l in u'
      ensures (c in u'[l] <==> l in t && c in t[l]) && (c in u'[l] ==> u'[l][c] == t[l][c])
    {
      assert NobodySets(raws, given, n, l, c);
      assert Has(raws, given, n + 1, n, k);
    }
  }

  lemma {:induction false} NewNext(mode: OnConflict, t: Table, raws: seq<Raw>, given: seq<int>, n: nat, u: Table,
                                   k: int)
    requires n < |raws| && KeyAt(raws, given, n) == Some(k)
    requires KeysAre(t, raws, given, n, u) && NewWhereNeeded(mode, t, raws, given, n)
    requires mode.Error? || !raws[n].key.Given? ==> k !in u
    ensures NewWhereNeeded(mode, t, raws, given, n + 1)
  {
    hide KeyAt, Mentioned;
    forall i: nat | i < n + 1 && (mode.Error? || !raws[i].key.Given?) ensures IsNew(t, raws, given, i) {
      if i == n {
        assert k !in t && !Mentioned(raws, given, n, k);
      }
    }
  }

  /** The row that is inserted next, with the key that is its own or given out for it. */
  lemma {:induction false} InsertsNext(mode: OnConflict, t: Table, raws: seq<Raw>, given: seq<int>, n: nat, u: Table,
                                       k: int)
    requires n < |raws| && KeyAt(raws, given, n) == Some(k) && Inserts(mode, t, raws, given, n, u)
    requires mode.Error? || !raws[n].key.Given? ==> k !in u
    ensures Inserts(mode, t, raws, given, n + 1, One(mode, u, k, raws[n].cells))
  {
    hide KeyAt, KeysAre, NewWhereNeeded, FirstStays, LastWins;
    var u' := One(mode, u, k, raws[n].cells);
    assert u'.Keys == u.Keys + {k};
    KeysNext(t, raws, given, n, u, k, u');
    NewNext(mode, t, raws, given, n, u, k);
    if mode.Update? {
      LastNext(t, raws, given, n, u, k);
    } else {
      FirstNext(mode, t, raws, given, n, u, k);
    }
  }

  lemma {:induction false} InsertsNothing(mode: OnConflict, t: Table, raws: seq<Raw>, given: seq<int>)
    ensures Inserts(mode, t, raws, given, 0, t)
  {
  }

  /** The prepared rows applied one by one. */
  lemma {:induction false} AppliedInserts(mode: OnConflict, t: Table, raws: seq<Raw>, given: seq<int>, n: nat)
    requires n <= |raws| && Keyless(raws, n) <= |given|
    requires Unkeyed(Prepared(raws)[..n]) <= |given| && Applies(mode, t, Prepared(raws)[..n], given)
    ensures Inserts(mode, t, raws, given, n, Applied(mode, t, Prepared(raws)[..n], given))
  {
    hide Inserts, One, Unkeyed, Prepared;
    if n == 0 {
      InsertsNothing(mode, t, raws, given);
    } else {
      var rows := Prepared(raws);
      var done := rows[..n];
      assert done[..n - 1] == rows[..n - 1] && done[n - 1] == rows[n - 1];
      UnkeyedIsKeyless(raws, n - 1);
      UnkeyedIsKeyless(raws, n);
      AppliedInserts(mode, t, raws, given, n - 1);
      KeyOfLast(raws, given, n);
      InsertsNext(mode, t, raws, given, n - 1, Applied(mode, t, rows[..n - 1], given), LastKey(done, given));
    }
  }

  lemma {:induction false} KeyOfLast(raws: seq<Raw>, given: seq<int>, n: nat)
    requires 0 < n <= |raws| && Keyless(raws, n) <= |given| && Unkeyed(Prepared(raws)[..n]) <= |given|
    ensures KeyAt(raws, given, n - 1) == Some(LastKey(Prepared(raws)[..n], given))
    ensures Prepared(raws)[n - 1].key.None? <==> !raws[n - 1].key.Given?
    ensures Prepared(raws)[n - 1].cells == raws[n - 1].cells
  {
    hide Unkeyed;
    UnkeyedIsKeyless(raws, n - 1);
    UnkeyedIsKeyless(raws, n);
    assert Prepared(raws)[..n][..n - 1] == Prepared(raws)[..n - 1];
  }
}
