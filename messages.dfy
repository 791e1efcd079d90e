/**
 * The `Message` table shared by the socket server and the chat client, and the
 * history query both of them run against it: rows ordered by `createdAt`
 * ascending, at most 50 of them.
 *
 * The table is represented by the sequence of its rows in the order the store
 * created them. The store assigns `id` by auto-increment and `createdAt` from its
 * clock, so that order is ascending in `id` and non-decreasing in `createdAt`
 * (`StoreOrdered`), and the model takes ordering by `createdAt` to keep the
 * sequence as it is. Rows with equal timestamps are thereby kept in `id` order,
 * which the query itself does not promise.
 */
module Messages {
  import opened Options

  /** A persisted chat message; `createdAt` is a millisecond timestamp. */
  datatype Message = Message(
    id: int,
    text: Option<string>,
    imageUrl: Option<string>,
    sender: string,
    createdAt: int)

  /** The `take` / `.limit` of both history queries. */
  const HistoryLimit: nat := 50

  /** Rows in creation order: ids strictly increase, timestamps never go back. */
  predicate StoreOrdered(rows: seq<Message>) {
    forall i, j :: 0 <= i < j < |rows| ==> rows[i].id < rows[j].id && rows[i].createdAt <= rows[j].createdAt
  }

  /** No two rows share an `id`. */
  predicate DistinctIds(rows: seq<Message>) {
    forall i, j :: 0 <= i < j < |rows| ==> rows[i].id != rows[j].id
  }

  /** A store-assigned `(id, createdAt)` pair that may follow the current last row. */
  predicate MayFollow(rows: seq<Message>, id: int, createdAt: int) {
    rows == [] || (rows[|rows| - 1].id < id && rows[|rows| - 1].createdAt <= createdAt)
  }

  function Min(a: nat, b: nat): nat {
    if a <= b then a else b
  }

  /**
   * The history query as written: ascending by `createdAt`, then the first
   * `limit` rows. On an ordered store that is the OLDEST `limit` messages.
   */
  function OldestWindow(rows: seq<Message>, limit: nat): (w: seq<Message>)
    ensures |w| == Min(limit, |rows|)
    ensures forall k :: 0 <= k < |w| ==> w[k] == rows[k]
    ensures StoreOrdered(rows) ==> StoreOrdered(w)
  {
    if |rows| <= limit then rows else rows[..limit]
  }

  /**
   * The window the surrounding comment asks for ("the last 50 messages"): the
   * NEWEST `limit` rows, still oldest first.
   */
  function LatestWindow(rows: seq<Message>, limit: nat): (w: seq<Message>)
    ensures |w| == Min(limit, |rows|)
    ensures forall k :: 0 <= k < |w| ==> w[k] == rows[|rows| - |w| + k]
    ensures StoreOrdered(rows) ==> StoreOrdered(w)
  {
    if |rows| <= limit then rows else rows[|rows| - limit..]
  }

  /** On an ordered store the window as written holds the earliest timestamps. */
  lemma OldestIsEarliest(rows: seq<Message>, limit: nat)
    requires StoreOrdered(rows)
    ensures var w := OldestWindow(rows, limit);
      forall i, j :: 0 <= i < |w| <= j < |rows| ==> w[i].createdAt <= rows[j].createdAt
  {
  }

  lemma OrderedHasDistinctIds(rows: seq<Message>)
    requires StoreOrdered(rows)
    ensures DistinctIds(rows)
  {
  }

  /** The newest message is in the corrected window whenever the store is not empty. */
  lemma LatestWindowHasNewest(rows: seq<Message>, limit: nat)
    requires rows != [] && limit > 0
    ensures rows[|rows| - 1] in LatestWindow(rows, limit)
  {
    var w := LatestWindow(rows, limit);
    assert w[|w| - 1] == rows[|rows| - 1];
  }

  /** Once the store holds more than `limit` messages, the window as written misses the newest one. */
  lemma OldestWindowMissesNewest(rows: seq<Message>, limit: nat)
    requires StoreOrdered(rows) && |rows| > limit
    ensures rows[|rows| - 1] !in OldestWindow(rows, limit)
  {
  }

  /** The two windows agree exactly when the store holds at most `limit` messages. */
  lemma WindowsAgreeIffSmall(rows: seq<Message>, limit: nat)
    requires StoreOrdered(rows) && limit > 0
    ensures OldestWindow(rows, limit) == LatestWindow(rows, limit) <==> |rows| <= limit
  {
    if |rows| > limit {
      assert OldestWindow(rows, limit)[0] == rows[0];
      assert LatestWindow(rows, limit)[0] == rows[|rows| - limit];
      assert rows[0].id < rows[|rows| - limit].id;
    }
  }

  /** `n` messages with ids 1..n, one second apart. */
  function Numbered(n: nat): (rows: seq<Message>)
    ensures |rows| == n
    ensures forall k :: 0 <= k < n ==> rows[k].id == k + 1 && rows[k].createdAt == 1000 * (k + 1)
    ensures StoreOrdered(rows)
  {
    if n == 0 then [] else Numbered(n - 1) + [Message(n, Some("hi"), None, "shfq", 1000 * n)]
  }

  /** With 60 stored messages the history sent holds ids 1..50, not 11..60. */
  lemma SixtyMessagesHistory()
    ensures var w := OldestWindow(Numbered(60), HistoryLimit);
      |w| == 50 && w[0].id == 1 && w[49].id == 50
    ensures var w := LatestWindow(Numbered(60), HistoryLimit);
      |w| == 50 && w[0].id == 11 && w[49].id == 60
  {
  }
}
