/**
  The high-score table: one row per (user, chat) holding the user's name and the score of
  their latest finished quiz in that chat, with an upsert and the two read queries.
 */
module Scores {
  import opened Common

  /** The table's primary key. */
  datatype Key = Key(user: int, chat: int)

  /** The non-key columns. */
  datatype Row = Row(userName: string, score: int)

  /** The table: a map keeps at most one row per primary key. */
  type Store = map<Key, Row>

  /** Row limit of the per-chat high-score query. */
  const TopLimit: nat := 10

  /** `INSERT OR REPLACE`: the row for (user, chat) becomes the given one, whatever it held. */
  function Save(store: Store, user: int, userName: string, chat: int, score: int): (r: Store)
    ensures r.Keys == store.Keys + {Key(user, chat)}
    ensures r[Key(user, chat)] == Row(userName, score)
    ensures forall k :: k in store && k != Key(user, chat) ==> r[k] == store[k]
  {
    store[Key(user, chat) := Row(userName, score)]
  }

  /** A second save for the same user and chat replaces the first completely. */
  lemma SaveLatestWins(store: Store, user: int, chat: int, name1: string, score1: int, name2: string, score2: int)
    ensures Save(Save(store, user, name1, chat, score1), user, name2, chat, score2)
         == Save(store, user, name2, chat, score2)
  {
  }

  /** A save adds a row only for a key that had none. */
  lemma SaveRowCount(store: Store, user: int, userName: string, chat: int, score: int)
    ensures Key(user, chat) in store ==> |Save(store, user, userName, chat, score)| == |store|
    ensures Key(user, chat) !in store ==> |Save(store, user, userName, chat, score)| == |store| + 1
  {
    var r := Save(store, user, userName, chat, score);
    if Key(user, chat) in store {
      assert r.Keys == store.Keys;
    } else {
      assert r.Keys == store.Keys + {Key(user, chat)};
    }
  }

  /** The rows `WHERE chat_id = chat`. */
  function ChatKeys(store: Store, chat: int): set<Key>
  {
    set k | k in store.Keys && k.chat == chat
  }

  /** The rows `WHERE user_id = user`. */
  function UserKeys(store: Store, user: int): set<Key>
  {
    set k | k in store.Keys && k.user == user
  }

  /** The names recorded for a user, across chats. */
  function UserNames(store: Store, user: int): set<string>
  {
    set k | k in store.Keys && k.user == user :: store[k].userName
  }

  predicate InStore(store: Store, ks: seq<Key>)
  {
    forall i :: 0 <= i < |ks| ==> ks[i] in store
  }

  /** Scores do not increase along `ks`. */
  predicate SortedDesc(store: Store, ks: seq<Key>)
    requires InStore(store, ks)
  {
    forall i, j :: 0 <= i < j < |ks| ==> store[ks[i]].score >= store[ks[j]].score
  }

  /**
    `top` is a valid answer of `ORDER BY score DESC LIMIT 10` over the chat's rows: distinct
    rows of that chat, scores non-increasing, as many as the limit allows, and no row left
    out scores above the last one returned. Among equal scores any order is allowed.
   */
  ghost predicate IsChatTop(store: Store, chat: int, top: seq<Key>)
  {
    && InStore(store, top)
    && (forall i :: 0 <= i < |top| ==> top[i].chat == chat)
    && Distinct(top)
    && SortedDesc(store, top)
    && |top| == Min(TopLimit, |ChatKeys(store, chat)|)
    && forall k :: k in ChatKeys(store, chat) && k !in top ==>
         0 < |top| && store[k].score <= store[top[|top| - 1]].score
  }

  /** Place `k` into a descending sequence after every key scoring at least as much. */
  function Insert(store: Store, sorted: seq<Key>, k: Key): (r: seq<Key>)
    requires k in store && InStore(store, sorted) && SortedDesc(store, sorted)
    ensures |r| == |sorted| + 1
    ensures forall x :: x in r <==> x == k || x in sorted
    ensures InStore(store, r) && SortedDesc(store, r)
    ensures Distinct(sorted) && k !in sorted ==> Distinct(r)
    decreases |sorted|
  {
    if sorted == [] || store[sorted[0]].score < store[k].score then
      [k] + sorted
    else
      var rest := Insert(store, sorted[1..], k);
      assert forall x :: x in rest ==> store[sorted[0]].score >= store[x].score;
      assert Distinct(sorted) && k !in sorted ==> sorted[0] !in rest by {
        if Distinct(sorted) && k !in sorted {
          forall j | 0 <= j < |sorted[1..]| ensures sorted[1..][j] != sorted[0] {
            assert sorted[1..][j] == sorted[j + 1];
          }
        }
      }
      [sorted[0]] + rest
  }

  /** `SELECT user_name, score FROM highscores WHERE chat_id = ? ORDER BY score DESC LIMIT 10`. */
  method ChatHighscores(store: Store, chat: int) returns (top: seq<Key>, rows: seq<Row>)
    ensures IsChatTop(store, chat, top)
    ensures |rows| == |top| && forall i :: 0 <= i < |rows| ==> rows[i] == store[top[i]]
  {
    var remaining := ChatKeys(store, chat);
    var sorted: seq<Key> := [];
    while remaining != {}
      invariant remaining <= ChatKeys(store, chat)
      invariant InStore(store, sorted) && SortedDesc(store, sorted) && Distinct(sorted)
      invariant forall x :: x in sorted <==> x in ChatKeys(store, chat) && x !in remaining
      invariant |sorted| + |remaining| == |ChatKeys(store, chat)|
      decreases remaining
    {
      var k :| k in remaining;
      sorted := Insert(store, sorted, k);
      remaining := remaining - {k};
    }
    var n := Min(TopLimit, |sorted|);
    top := sorted[..n];
    assert forall i :: 0 <= i < |top| ==> top[i] in sorted;
    forall k | k in ChatKeys(store, chat) && k !in top
      ensures 0 < |top| && store[k].score <= store[top[|top| - 1]].score
    {
      var j :| 0 <= j < |sorted| && sorted[j] == k;
    }
    rows := seq(n, i requires 0 <= i < n => store[top[i]]);
  }

  /** Some key of a non-empty set, fixed once so that sums over the set are well defined. */
  ghost function Pick(keys: set<Key>): (k: Key)
    requires keys != {}
    ensures k in keys
  {
    var k :| k in keys; k
  }

  /** The sum of the scores of the given rows. */
  ghost function Total(store: Store, keys: set<Key>): int
    requires keys <= store.Keys
    decreases keys
  {
    if keys == {} then 0
    else
      var k := Pick(keys);
      store[k].score + Total(store, keys - {k})
  }

  /** The sum does not depend on which row is taken out first. */
  lemma {:induction false} TotalRemove(store: Store, keys: set<Key>, k: Key)
    requires keys <= store.Keys && k in keys
    ensures Total(store, keys) == store[k].score + Total(store, keys - {k})
    decreases keys
  {
    var p := Pick(keys);
    if p != k {
      TotalRemove(store, keys - {p}, k);
      TotalRemove(store, keys - {k}, p);
      assert keys - {p} - {k} == keys - {k} - {p};
    }
  }

  /**
    `SELECT user_name, SUM(score) FROM highscores WHERE user_id = ? GROUP BY user_id ...`:
    one group at most, whose total is the sum over all the user's chats and whose name is
    one of the names recorded for the user (which one is not determined).
   */
  method Leaderboard(store: Store, user: int) returns (rows: seq<(string, int)>)
    ensures |rows| <= 1
    ensures rows == [] <==> UserKeys(store, user) == {}
    ensures forall i :: 0 <= i < |rows| ==>
              rows[i].0 in UserNames(store, user) && rows[i].1 == Total(store, UserKeys(store, user))
  {
    var remaining := UserKeys(store, user);
    if remaining == {} {
      return [];
    }
    var first :| first in remaining;
    var name := store[first].userName;
    var total := 0;
    while remaining != {}
      invariant remaining <= UserKeys(store, user)
      invariant total + Total(store, remaining) == Total(store, UserKeys(store, user))
      decreases remaining
    {
      var k :| k in remaining;
      TotalRemove(store, remaining, k);
      total := total + store[k].score;
      remaining := remaining - {k};
    }
    rows := [(name, total)];
  }
}
