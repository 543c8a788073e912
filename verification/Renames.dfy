/** Renaming a target onto one that is already in use (ferrixd/src/history.rs). */
module Renames {
  import opened Persist
  import opened History

  /** The messages of two targets, oldest first. */
  function Merged(rows: seq<Row>, a: string, b: string): seq<Stored> {
    if rows == [] then [] else Both(rows[0], a, b) + Merged(rows[1..], a, b)
  }

  function Both(r: Row, a: string, b: string): seq<Stored> {
    if r.folded == a || r.folded == b then [r.message] else []
  }

  lemma {:induction false} MergedStored(rows: seq<Row>, r: Row, a: string, b: string)
    ensures Merged(rows + [r], a, b) == Merged(rows, a, b) + Both(r, a, b)
    decreases |rows|
  {
    var all := rows + [r];
    if rows == [] {
      assert all[1..] == [];
      assert Both(r, a, b) + [] == Both(r, a, b);
    } else {
      assert all[1..] == rows[1..] + [r];
      MergedStored(rows[1..], r, a, b);
    }
  }

  /** The renamed target has the rows of both; the others keep theirs. */
  lemma {:induction false} MessagesMerged(rows: seq<Row>, oldKey: string, newKey: string, t: string)
    requires oldKey != newKey
    ensures var rows' := RenameRows(rows, oldKey, newKey);
            && Messages(rows', newKey) == Merged(rows, oldKey, newKey) == Merged(rows, newKey, oldKey)
            && (t != oldKey && t != newKey ==> Messages(rows', t) == Messages(rows, t))
  {
    hide Messages;
    if rows == [] {
      NoMessages(newKey);
      NoMessages(t);
    } else {
      var r, rest := rows[0], RenameRows(rows[1..], oldKey, newKey);
      MessagesMerged(rows[1..], oldKey, newKey, t);
      MessagesCons(RenameRow(r, oldKey, newKey), rest, newKey);
      MessagesCons(RenameRow(r, oldKey, newKey), rest, t);
      assert rows == [r] + rows[1..];
      MessagesCons(r, rows[1..], t);
    }
  }

  /** Of the rows of the two targets, the newest `n` are all of `a`. */
  predicate Newest(rows: seq<Row>, a: string, b: string, n: nat)
    decreases |rows|
  {
    if n == 0 then true
    else if rows == [] then false
    else
      var before, key := rows[..|rows| - 1], rows[|rows| - 1].folded;
      if key == a then Newest(before, a, b, n - 1)
      else key != b && Newest(before, a, b, n)
  }

  /** No id is in use under both targets. */
  predicate Apart(rows: seq<Row>, a: string, b: string) {
    forall i, j :: 0 <= i < |rows| && 0 <= j < |rows| && rows[i].folded == a && rows[j].folded == b ==>
                     rows[i].message.msgid != rows[j].message.msgid
  }

  lemma {:induction false} MessageRow(rows: seq<Row>, t: string, k: nat) returns (i: nat)
    requires k < |Messages(rows, t)|
    ensures i < |rows| && rows[i].folded == t && rows[i].message == Messages(rows, t)[k]
  {
    var here := rows[0].folded == t;
    if here && k == 0 {
      i := 0;
    } else {
      i := MessageRow(rows[1..], t, if here then k - 1 else k);
      i := i + 1;
    }
  }

  lemma SuffixSnoc(r: seq<Stored>, s: seq<Stored>, m: Stored)
    ensures IsSuffix(r, s + [m]) <==> r == [] || (r[|r| - 1] == m && IsSuffix(r[..|r| - 1], s))
  {
    if r != [] {
      var all, init := s + [m], r[..|r| - 1];
      if IsSuffix(r, all) {
        assert r[|r| - 1] == all[|all| - 1];
        assert init == s[|s| - |init|..];
      }
      if r[|r| - 1] == m && IsSuffix(init, s) {
        assert r == init + [m];
        assert all[|all| - |r|..] == s[|s| - |init|..] + [m];
      }
    }
  }

  /** A ring of `a` is the newest part of both targets' rows exactly when no row of `b` comes between. */
  lemma {:induction false} SuffixIffNewest(rows: seq<Row>, a: string, b: string, ring: seq<Stored>)
    requires a != b && Apart(rows, a, b) && IsSuffix(ring, Messages(rows, a))
    ensures IsSuffix(ring, Merged(rows, a, b)) <==> Newest(rows, a, b, |ring|)
    decreases |rows|
  {
    hide Messages, Merged, IsSuffix;
    if ring == [] {
      EmptySuffix(Merged(rows, a, b));
    } else if rows == [] {
      NothingStored(a, b, ring);
    } else {
      var n := |rows| - 1;
      var before, last := rows[..n], rows[n];
      assert rows == before + [last];
      MessagesStored(before, last, a);
      MergedStored(before, last, a, b);
      SuffixSnoc(ring, Merged(before, a, b), last.message);
      SuffixSnoc(ring, Messages(before, a), last.message);
      if last.folded == a {
        SuffixIffNewest(before, a, b, ring[..|ring| - 1]);
      } else if last.folded == b {
        assert Messages(before, a) + [] == Messages(before, a);
        LastIsForeign(rows, a, b, ring);
      } else {
        assert Messages(before, a) + [] == Messages(before, a);
        assert Merged(before, a, b) + [] == Merged(before, a, b);
        SuffixIffNewest(before, a, b, ring);
      }
    }
  }

  lemma NothingStored(a: string, b: string, ring: seq<Stored>)
    ensures IsSuffix(ring, Merged([], a, b)) ==> ring == []
  {
  }

  lemma LastIsForeign(rows: seq<Row>, a: string, b: string, ring: seq<Stored>)
    requires Apart(rows, a, b) && IsSuffix(ring, Messages(rows, a)) && ring != []
    requires rows != [] && rows[|rows| - 1].folded == b
    ensures ring[|ring| - 1] != rows[|rows| - 1].message
  {
    hide Messages;
    var i := MessageRow(rows, a, |Messages(rows, a)| - 1);
    assert ring[|ring| - 1] == rows[i].message;
  }

  /** The ring the renamed target is left with holds the newest rows of the two. */
  predicate Undisturbed(log: Log, rows: seq<Row>, oldKey: string, newKey: string) {
    if oldKey in log then Newest(rows, oldKey, newKey, |log[oldKey]|)
    else newKey in log ==> Newest(rows, newKey, oldKey, |log[newKey]|)
  }

  /** Exactly when a rename onto any other target keeps the rings in step with the table. */
  lemma RenameFollowsIff(log: Log, oldKey: string, newKey: string, db: Db)
    requires Follows(log, db.rows) && oldKey != newKey
    requires Apart(db.rows, oldKey, newKey) && Apart(db.rows, newKey, oldKey)
    ensures Follows(Renamed(log, oldKey, newKey), Execute(db, Rename(oldKey, newKey)).rows)
       <==> Undisturbed(log, db.rows, oldKey, newKey)
  {
    hide Messages, Merged, IsSuffix, Newest, Apart;
    var log', rows' := Renamed(log, oldKey, newKey), RenameRows(db.rows, oldKey, newKey);
    forall t
      ensures Messages(rows', newKey) == Merged(db.rows, oldKey, newKey) == Merged(db.rows, newKey, oldKey)
      ensures t in log' && t != newKey ==> IsSuffix(log'[t], Messages(rows', t))
    {
      MessagesMerged(db.rows, oldKey, newKey, t);
    }
    MessagesMerged(db.rows, oldKey, newKey, newKey);
    if oldKey in log {
      assert log'[newKey] == log[oldKey];
      SuffixIffNewest(db.rows, oldKey, newKey, log[oldKey]);
    } else if newKey in log {
      SuffixIffNewest(db.rows, newKey, oldKey, log[newKey]);
    }
  }
}
