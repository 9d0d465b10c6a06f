/**
  What the client's models do with a message that lists everything the server now has: rows whose
  key is no longer listed go, listed rows are updated where they stand, new ones are appended.
  `Reconcile` is the specification the three handlers are proved against; the lemmas say what it
  does to the keys and to the row of any one key, for one message and over a run of messages.
*/
module Reconcile {
  import opened Options

  // How rows of type R and message entries of type M fit together.
  datatype Schema<!R(!new), !M(!new)> = Schema(
    key: R -> string,
    id: M -> string,
    update: (R, M) -> R,
    create: M -> R)
  {
    ghost predicate Valid() {
      && (forall r, m :: key(update(r, m)) == key(r))
      && (forall m :: key(create(m)) == id(m))
    }

    function Keys(rows: seq<R>): seq<string> {
      seq(|rows|, i requires 0 <= i < |rows| => key(rows[i]))
    }

    function Ids(message: seq<M>): seq<string> {
      seq(|message|, i requires 0 <= i < |message| => id(message[i]))
    }

    // The rows whose key the message still lists.
    function Retain(rows: seq<R>, listed: seq<string>): seq<R> {
      if rows == [] then []
      else (if key(rows[0]) in listed then [rows[0]] else []) + Retain(rows[1..], listed)
    }

    function UpdateAll(rows: seq<R>, m: M): seq<R> {
      seq(|rows|, i requires 0 <= i < |rows| => if key(rows[i]) == id(m) then update(rows[i], m) else rows[i])
    }

    function Upsert(rows: seq<R>, m: M): seq<R> {
      if id(m) in Keys(rows) then UpdateAll(rows, m) else rows + [create(m)]
    }

    function Merge(rows: seq<R>, message: seq<M>): seq<R>
      decreases |message|
    {
      if message == [] then rows else Upsert(Merge(rows, message[..|message| - 1]), message[|message| - 1])
    }

    function Reconcile(rows: seq<R>, message: seq<M>): seq<R> {
      Merge(Retain(rows, Ids(message)), message)
    }

    function Run(messages: seq<seq<M>>): seq<R>
      decreases |messages|
    {
      if messages == [] then [] else Reconcile(Run(messages[..|messages| - 1]), messages[|messages| - 1])
    }

    // The first row with key k.
    function Find(rows: seq<R>, k: string): Option<R> {
      if rows == [] then None else if key(rows[0]) == k then Some(rows[0]) else Find(rows[1..], k)
    }

    // The entries of a message for key k, in order.
    function Entries(message: seq<M>, k: string): seq<M>
      decreases |message|
    {
      if message == [] then []
      else
        var last := message[|message| - 1];
        Entries(message[..|message| - 1], k) + (if id(last) == k then [last] else [])
    }

    // One row, given the entries for its key and nothing else.
    function Follow(row: Option<R>, entries: seq<M>): Option<R>
      decreases |entries|
    {
      if entries == [] then row
      else
        var before := Follow(row, entries[..|entries| - 1]);
        var m := entries[|entries| - 1];
        Some(if before.Some? then update(before.value, m) else create(m))
    }

    // One row over a run: a message without its key drops it.
    function FollowRun(messages: seq<seq<M>>, k: string): Option<R>
      decreases |messages|
    {
      if messages == [] then None
      else
        var entries := Entries(messages[|messages| - 1], k);
        if entries == [] then None
        else Follow(FollowRun(messages[..|messages| - 1], k), entries)
    }

    // What the messages reported for a key since it last appeared, in order.
    function Reports(messages: seq<seq<M>>, k: string): seq<M>
      decreases |messages|
    {
      if messages == [] then []
      else
        var entries := Entries(messages[|messages| - 1], k);
        if entries == [] then [] else Reports(messages[..|messages| - 1], k) + entries
    }
  }

  // ----- the keys -----

  function Only(keys: seq<string>, listed: seq<string>): seq<string> {
    if keys == [] then [] else (if keys[0] in listed then [keys[0]] else []) + Only(keys[1..], listed)
  }

  // The elements of xs not in seen, each at its first occurrence.
  function FirstOccurrences(xs: seq<string>, seen: set<string>): seq<string> {
    if xs == [] then []
    else if xs[0] in seen then FirstOccurrences(xs[1..], seen)
    else [xs[0]] + FirstOccurrences(xs[1..], seen + {xs[0]})
  }

  predicate Distinct(xs: seq<string>) {
    forall i, j :: 0 <= i < j < |xs| ==> xs[i] != xs[j]
  }

  function Elements(xs: seq<string>): set<string> {
    set x | x in xs
  }

  lemma ElementsConcat(xs: seq<string>, ys: seq<string>)
    ensures Elements(xs + ys) == Elements(xs) + Elements(ys)
  {
  }

  lemma {:induction false} FirstOccurrencesConcat(xs: seq<string>, ys: seq<string>, seen: set<string>)
    ensures FirstOccurrences(xs + ys, seen)
            == FirstOccurrences(xs, seen) + FirstOccurrences(ys, seen + Elements(xs))
  {
    if xs == [] {
      assert xs + ys == ys;
      assert seen + Elements(xs) == seen;
    } else {
      assert (xs + ys)[1..] == xs[1..] + ys;
      var seen' := if xs[0] in seen then seen else seen + {xs[0]};
      FirstOccurrencesConcat(xs[1..], ys, seen');
      assert Elements(xs) == {xs[0]} + Elements(xs[1..]);
      assert seen' + Elements(xs[1..]) == seen + Elements(xs);
    }
  }

  lemma {:induction false} FirstOccurrencesElements(xs: seq<string>, seen: set<string>)
    ensures Elements(FirstOccurrences(xs, seen)) == Elements(xs) - seen
    ensures Distinct(FirstOccurrences(xs, seen))
  {
    if xs != [] {
      var rest := if xs[0] in seen then seen else seen + {xs[0]};
      FirstOccurrencesElements(xs[1..], rest);
      assert Elements(xs) == {xs[0]} + Elements(xs[1..]);
      if xs[0] !in seen {
        var tail := FirstOccurrences(xs[1..], rest);
        var all := FirstOccurrences(xs, seen);
        assert all == [xs[0]] + tail;
        assert Elements(all) == {xs[0]} + Elements(tail);
        forall i | 0 <= i < |tail| ensures tail[i] != xs[0] {
          assert tail[i] in Elements(tail);
        }
      }
    }
  }

  lemma {:induction false} OnlyElements(keys: seq<string>, listed: seq<string>)
    ensures Elements(Only(keys, listed)) == Elements(keys) * Elements(listed)
    ensures Distinct(keys) ==> Distinct(Only(keys, listed))
  {
    if keys != [] {
      var tail := Only(keys[1..], listed);
      OnlyElements(keys[1..], listed);
      assert Elements(keys) == {keys[0]} + Elements(keys[1..]);
      if keys[0] in listed {
        assert Only(keys, listed) == [keys[0]] + tail;
        assert Elements(Only(keys, listed)) == {keys[0]} + Elements(tail);
        if Distinct(keys) {
          forall i | 0 <= i < |tail| ensures tail[i] != keys[0] {
            assert tail[i] in Elements(tail);
          }
        }
        assert keys[0] in Elements(listed);
      } else {
        assert Only(keys, listed) == tail;
        assert keys[0] !in Elements(listed);
      }
      assert ({keys[0]} + Elements(keys[1..])) * Elements(listed)
          == {keys[0]} * Elements(listed) + Elements(keys[1..]) * Elements(listed);
    }
  }

  lemma {:induction false} RetainConcat<R(!new), M(!new)>(s: Schema<R, M>, a: seq<R>, b: seq<R>, listed: seq<string>)
    ensures s.Retain(a + b, listed) == s.Retain(a, listed) + s.Retain(b, listed)
  {
    if a == [] {
      assert a + b == b;
    } else {
      assert (a + b)[1..] == a[1..] + b;
      RetainConcat(s, a[1..], b, listed);
    }
  }

  lemma RetainNext<R(!new), M(!new)>(s: Schema<R, M>, rows: seq<R>, n: nat, listed: seq<string>)
    requires n < |rows|
    ensures s.Retain(rows[..n + 1], listed)
            == s.Retain(rows[..n], listed) + (if s.key(rows[n]) in listed then [rows[n]] else [])
  {
    assert rows[..n + 1] == rows[..n] + [rows[n]];
    RetainConcat(s, rows[..n], [rows[n]], listed);
  }

  // Removing, or stepping over, the element between a prefix and a suffix.
  lemma StepOver<R>(all: seq<R>, kept: seq<R>, rows: seq<R>, seen: nat)
    requires seen < |rows| && all == kept + rows[seen..]
    ensures all[|kept|] == rows[seen]
    ensures all[..|kept|] + all[|kept| + 1..] == kept + rows[seen + 1..]
    ensures all == (kept + [rows[seen]]) + rows[seen + 1..]
  {
  }

  // Where a loop that drops rows stands: the rows seen so far are kept or gone, those behind are as they were.
  ghost predicate Dropping<R(!new), M(!new)>(s: Schema<R, M>, all: seq<R>, rows: seq<R>, kept: seq<R>, seen: nat,
                                       ids: seq<string>)
  {
    && seen <= |rows|
    && kept == s.Retain(rows[..seen], ids)
    && all == kept + rows[seen..]
  }

  lemma DroppingNext<R(!new), M(!new)>(s: Schema<R, M>, all: seq<R>, rows: seq<R>, kept: seq<R>, seen: nat,
                                       ids: seq<string>)
    requires seen < |rows| && Dropping(s, all, rows, kept, seen, ids)
    ensures all[|kept|] == rows[seen]
    ensures
      if s.key(rows[seen]) in ids then
        Dropping(s, all, rows, kept + [rows[seen]], seen + 1, ids)
      else
        Dropping(s, all[..|kept|] + all[|kept| + 1..], rows, kept, seen + 1, ids)
  {
    StepOver(all, kept, rows, seen);
    RetainNext(s, rows, seen, ids);
  }

  lemma {:induction false} RetainKeys<R(!new), M(!new)>(s: Schema<R, M>, rows: seq<R>, listed: seq<string>)
    ensures s.Keys(s.Retain(rows, listed)) == Only(s.Keys(rows), listed)
  {
    if rows == [] {
      assert s.Keys(rows) == [];
    } else {
      RetainKeys(s, rows[1..], listed);
      assert s.Keys(rows)[1..] == s.Keys(rows[1..]);
    }
  }

  lemma {:induction false} MergeKeys<R(!new), M(!new)>(s: Schema<R, M>, rows: seq<R>, message: seq<M>)
    requires s.Valid()
    ensures s.Keys(s.Merge(rows, message))
            == s.Keys(rows) + FirstOccurrences(s.Ids(message), Elements(s.Keys(rows)))
    decreases |message|
  {
    if message == [] {
      assert s.Ids(message) == [];
    } else {
      var n := |message| - 1;
      var before := s.Merge(rows, message[..n]);
      MergeKeys(s, rows, message[..n]);
      var ids, id := s.Ids(message[..n]), s.id(message[n]);
      var known := Elements(s.Keys(rows));
      assert s.Ids(message) == ids + [id];
      FirstOccurrencesConcat(ids, [id], known);
      FirstOccurrencesElements(ids, known);
      ElementsConcat(s.Keys(rows), FirstOccurrences(ids, known));
      assert Elements(s.Keys(before)) == known + Elements(ids);
      assert id in s.Keys(before) <==> id in Elements(s.Keys(before));
      if id in s.Keys(before) {
        assert s.Keys(s.UpdateAll(before, message[n])) == s.Keys(before);
        assert FirstOccurrences([id], known + Elements(ids)) == [];
      } else {
        assert s.Keys(before + [s.create(message[n])]) == s.Keys(before) + [id];
        assert FirstOccurrences([id], known + Elements(ids)) == [id];
      }
    }
  }

  /**
    After a message, the keys are the old keys it lists, in their old order, and then the new ones in
    the order in which it first lists them, whatever duplicates the message has.
  */
  lemma KeysAfter<R(!new), M(!new)>(s: Schema<R, M>, rows: seq<R>, message: seq<M>)
    requires s.Valid()
    ensures
      var old_ := Only(s.Keys(rows), s.Ids(message));
      s.Keys(s.Reconcile(rows, message)) == old_ + FirstOccurrences(s.Ids(message), Elements(old_))
    ensures Elements(s.Keys(s.Reconcile(rows, message))) == Elements(s.Ids(message))
    ensures Distinct(s.Keys(rows)) ==> Distinct(s.Keys(s.Reconcile(rows, message)))
  {
    var ids := s.Ids(message);
    var kept := Only(s.Keys(rows), ids);
    RetainKeys(s, rows, ids);
    MergeKeys(s, s.Retain(rows, ids), message);
    OnlyElements(s.Keys(rows), ids);
    FirstOccurrencesElements(ids, Elements(kept));
    var fresh_ := FirstOccurrences(ids, Elements(kept));
    ElementsConcat(kept, fresh_);
    if Distinct(s.Keys(rows)) {
      forall i, j | 0 <= i < |kept| && 0 <= j < |fresh_| ensures kept[i] != fresh_[j] {
        assert kept[i] in Elements(kept) && fresh_[j] in Elements(fresh_);
      }
    }
  }

  // The keys of a model that starts empty stay pairwise distinct for ever.
  lemma {:induction false} KeysStayDistinct<R(!new), M(!new)>(s: Schema<R, M>, messages: seq<seq<M>>)
    requires s.Valid()
    ensures Distinct(s.Keys(s.Run(messages)))
    decreases |messages|
  {
    if messages != [] {
      var n := |messages| - 1;
      KeysStayDistinct(s, messages[..n]);
      KeysAfter(s, s.Run(messages[..n]), messages[n]);
    }
  }

  // ----- the row of one key -----

  lemma {:induction false} FindIffKey<R(!new), M(!new)>(s: Schema<R, M>, rows: seq<R>, k: string)
    ensures s.Find(rows, k).Some? <==> k in s.Keys(rows)
    ensures s.Find(rows, k).Some? ==> s.key(s.Find(rows, k).value) == k
  {
    if rows == [] {
      assert s.Keys(rows) == [];
    } else {
      FindIffKey(s, rows[1..], k);
      assert s.Keys(rows) == [s.key(rows[0])] + s.Keys(rows[1..]);
    }
  }

  lemma {:induction false} FindRetained<R(!new), M(!new)>(s: Schema<R, M>, rows: seq<R>, listed: seq<string>, k: string)
    ensures s.Find(s.Retain(rows, listed), k) == if k in listed then s.Find(rows, k) else None
  {
    if rows != [] {
      var rest := s.Retain(rows[1..], listed);
      FindRetained(s, rows[1..], listed, k);
      assert s.Retain(rows, listed) == if s.key(rows[0]) in listed then [rows[0]] + rest else rest;
    }
  }

  lemma {:induction false} FindUpdated<R(!new), M(!new)>(s: Schema<R, M>, rows: seq<R>, m: M, k: string)
    requires s.Valid()
    ensures
      var r := s.Find(rows, k);
      s.Find(s.UpdateAll(rows, m), k) == if r.Some? && s.id(m) == k then Some(s.update(r.value, m)) else r
  {
    if rows != [] {
      FindUpdated(s, rows[1..], m, k);
      assert s.UpdateAll(rows, m)[1..] == s.UpdateAll(rows[1..], m);
    }
  }

  lemma {:induction false} FindAppended<R(!new), M(!new)>(s: Schema<R, M>, rows: seq<R>, row: R, k: string)
    ensures
      var r := s.Find(rows, k);
      s.Find(rows + [row], k) == if r.Some? then r else if s.key(row) == k then Some(row) else None
  {
    if rows != [] {
      FindAppended(s, rows[1..], row, k);
      assert (rows + [row])[1..] == rows[1..] + [row];
    }
  }

  lemma {:induction false} FindMerged<R(!new), M(!new)>(s: Schema<R, M>, rows: seq<R>, message: seq<M>, k: string)
    requires s.Valid()
    ensures s.Find(s.Merge(rows, message), k) == s.Follow(s.Find(rows, k), s.Entries(message, k))
    decreases |message|
  {
    if message != [] {
      var n := |message| - 1;
      var before, m := s.Merge(rows, message[..n]), message[n];
      FindMerged(s, rows, message[..n], k);
      FindIffKey(s, before, s.id(m));
      var entries := s.Entries(message[..n], k);
      assert s.Entries(message, k) == if s.id(m) == k then entries + [m] else entries;
      assert (entries + [m])[..|entries|] == entries;
      if s.id(m) in s.Keys(before) {
        FindUpdated(s, before, m, k);
      } else {
        FindAppended(s, before, s.create(m), k);
      }
    }
  }

  lemma {:induction false} EntriesIffListed<R(!new), M(!new)>(s: Schema<R, M>, message: seq<M>, k: string)
    ensures s.Entries(message, k) != [] <==> k in s.Ids(message)
    decreases |message|
  {
    if message == [] {
      assert s.Ids(message) == [];
    } else {
      var n := |message| - 1;
      EntriesIffListed(s, message[..n], k);
      assert s.Ids(message) == s.Ids(message[..n]) + [s.id(message[n])];
    }
  }

  /**
    The row of a key after a message depends only on its row before and the entries listed under that
    key: it is gone if there are none, and otherwise has been updated by each in turn.
  */
  lemma RowAfter<R(!new), M(!new)>(s: Schema<R, M>, rows: seq<R>, message: seq<M>, k: string)
    requires s.Valid()
    ensures
      var entries := s.Entries(message, k);
      s.Find(s.Reconcile(rows, message), k)
      == if entries == [] then None else s.Follow(s.Find(rows, k), entries)
  {
    FindMerged(s, s.Retain(rows, s.Ids(message)), message, k);
    FindRetained(s, rows, s.Ids(message), k);
    EntriesIffListed(s, message, k);
  }

  lemma {:induction false} RowAfterRun<R(!new), M(!new)>(s: Schema<R, M>, messages: seq<seq<M>>, k: string)
    requires s.Valid()
    ensures s.Find(s.Run(messages), k) == s.FollowRun(messages, k)
    decreases |messages|
  {
    if messages != [] {
      var n := |messages| - 1;
      RowAfterRun(s, messages[..n], k);
      RowAfter(s, s.Run(messages[..n]), messages[n], k);
    }
  }

  lemma {:induction false} FollowConcat<R(!new), M(!new)>(s: Schema<R, M>, row: Option<R>, a: seq<M>, b: seq<M>)
    ensures s.Follow(row, a + b) == s.Follow(s.Follow(row, a), b)
    decreases |b|
  {
    if b == [] {
      assert a + b == a;
    } else {
      var n := |b| - 1;
      assert (a + b)[..|a + b| - 1] == a + b[..n];
      FollowConcat(s, row, a, b[..n]);
    }
  }

  // The row of a key is made of its reports.
  lemma {:induction false} RowIsFromReports<R(!new), M(!new)>(s: Schema<R, M>, messages: seq<seq<M>>, k: string)
    requires s.Valid()
    ensures s.Find(s.Run(messages), k) == s.Follow(None, s.Reports(messages, k))
    decreases |messages|
  {
    RowAfterRun(s, messages, k);
    if messages != [] {
      var n := |messages| - 1;
      RowIsFromReports(s, messages[..n], k);
      RowAfterRun(s, messages[..n], k);
      FollowConcat(s, None, s.Reports(messages[..n], k), s.Entries(messages[n], k));
    }
  }

  lemma {:induction false} EntriesAreListed<R(!new), M(!new)>(s: Schema<R, M>, message: seq<M>, k: string)
    ensures forall i :: 0 <= i < |s.Entries(message, k)| ==> s.id(s.Entries(message, k)[i]) == k
    ensures s.Entries(message, k) == [] <==> forall m :: m in message ==> s.id(m) != k
    decreases |message|
  {
    if message != [] {
      var n := |message| - 1;
      EntriesAreListed(s, message[..n], k);
      assert message == message[..n] + [message[n]];
    }
  }

  // Every report is of that key, and there are some exactly while the last message lists it.
  lemma {:induction false} ReportsAreListed<R(!new), M(!new)>(s: Schema<R, M>, messages: seq<seq<M>>, k: string)
    ensures forall i :: 0 <= i < |s.Reports(messages, k)| ==> s.id(s.Reports(messages, k)[i]) == k
    ensures s.Reports(messages, k) == [] <==>
      messages == [] || forall m :: m in messages[|messages| - 1] ==> s.id(m) != k
    decreases |messages|
  {
    if messages != [] {
      var n := |messages| - 1;
      EntriesAreListed(s, messages[n], k);
      ReportsAreListed(s, messages[..n], k);
    }
  }

  // With distinct keys, the row found for a key is the one at its place.
  lemma {:induction false} FindAt<R(!new), M(!new)>(s: Schema<R, M>, rows: seq<R>, i: nat)
    requires i < |rows| && Distinct(s.Keys(rows))
    ensures s.Find(rows, s.key(rows[i])) == Some(rows[i])
  {
    assert s.Keys(rows)[0] == s.key(rows[0]) && s.Keys(rows)[i] == s.key(rows[i]);
    if i > 0 {
      assert s.Keys(rows[1..]) == s.Keys(rows)[1..];
      FindAt(s, rows[1..], i - 1);
    }
  }
}
