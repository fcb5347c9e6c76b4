/**
 * The portfolio controller: five request handlers over a shared key-value
 * cache with expiry and the `portfolio` table.
 *
 * The two read handlers are cache-aside: they look up a per-owner key, answer
 * from it when it is live, and otherwise query the table, store the result
 * for `CacheTtl` seconds and answer with exactly what they stored. The three
 * write handlers change only rows owned by the caller and, after a change,
 * delete both of that owner's keys before answering. Every error of the cache
 * or of the table ends the request with status 500 and the error's message.
 *
 * The cache client and the table are fields of one object, `PortfolioServer`;
 * the external calls a handler makes are numbered from 0 in the order it makes
 * them, and a `Fault` names the call that throws, if any.
 */
module StockController {
  import opened Common
  import opened Text

  /** How long a cached snapshot lives, in seconds. */
  const CacheTtl: int := 30

  // ---------------------------------------------------------------------------
  // Data
  // ---------------------------------------------------------------------------

  /** A row of the `portfolio` table. */
  datatype Row = Row(id: int, userId: int, ticker: string, quantity: int, buyPrice: real, createdAt: int)

  /** The `ticker`, `quantity` and `buy_price` of a create or update request body. */
  datatype StockInput = StockInput(ticker: string, quantity: int, buyPrice: real)

  /** The two cache keys of an owner: the holdings list and the summed value. */
  datatype Key = StocksKey(owner: int) | ValueKey(owner: int)

  /** What a key holds: a list of rows, or the row `{ total_value }`. */
  datatype Payload = RowsPayload(rows: seq<Row>) | ValuePayload(total: real)

  /** A cached payload with the clock time from which it no longer exists. */
  datatype Entry = Entry(payload: Payload, expiresAt: int)

  /** An external call made while handling a request. */
  datatype Call =
    | CacheGet(key: Key)
    | CacheSet(key: Key, ttl: int)
    | CacheDel(key: Key)
    | SelectRows(owner: int)
    | SelectTotal(owner: int)
    | Insert(owner: int)
    | UpdateWhere(id: int, owner: int)
    | DeleteWhere(id: int, owner: int)

  /** Which external call of a request throws, and with what message. */
  datatype Fault = NoFault | FailOn(step: nat, message: string)

  predicate Throws(fault: Fault, step: nat) {
    fault.FailOn? && fault.step == step
  }

  /** The response a handler sends. */
  datatype Reply =
    | Unauthorized
    | NotFound
    | ServerError(message: string)
    | RowsReply(rows: seq<Row>)
    | ValueReply(total: real)
    | RowReply(row: Row)
    | DeletedReply
  {
    function Status(): int {
      match this
      case Unauthorized => 401
      case NotFound => 404
      case ServerError(_) => 500
      case _ => 200
    }
  }

  /** `if (!userId)`: an absent user and the id 0 are both refused. */
  predicate SignedIn(user: Option<int>) {
    user.Some? && user.value != 0
  }

  // ---------------------------------------------------------------------------
  // Keys
  // ---------------------------------------------------------------------------

  /** The key as the cache stores it: `stocks:user:<id>` or `portfolio:value:<id>`. */
  function KeyText(k: Key): (text: string)
    ensures k.StocksKey? ==> |text| > 12 && text[..12] == "stocks:user:"
    ensures k.ValueKey? ==> |text| > 16 && text[..16] == "portfolio:value:"
  {
    NatToDecimalShape(if k.owner < 0 then -k.owner else k.owner);
    match k
    case StocksKey(u) => "stocks:user:" + IntToDecimal(u)
    case ValueKey(u) => "portfolio:value:" + IntToDecimal(u)
  }

  /**
   * Two keys are the same text exactly when they are the same key: the list and
   * value keys never collide, and keys of different owners never collide.
   */
  lemma KeyTextInjective(k1: Key, k2: Key)
    ensures KeyText(k1) == KeyText(k2) <==> k1 == k2
  {
    if KeyText(k1) == KeyText(k2) {
      var t := KeyText(k1);
      assert t[0] == (if k1.StocksKey? then 's' else 'p');
      assert t[0] == (if k2.StocksKey? then 's' else 'p');
      var n := if k1.StocksKey? then 12 else 16;
      assert t[n..] == IntToDecimal(k1.owner) == IntToDecimal(k2.owner);
      IntToDecimalInjective(k1.owner, k2.owner);
    }
  }

  /** The payload kind a key is meant to hold. */
  predicate Fits(k: Key, p: Payload) {
    k.StocksKey? <==> p.RowsPayload?
  }

  /** Two caches agree on every key that does not belong to `owner`. */
  ghost predicate SameForOthers(before: map<Key, Entry>, after: map<Key, Entry>, owner: int) {
    forall k: Key :: k.owner != owner ==>
      (k in after <==> k in before) && (k in after ==> after[k] == before[k])
  }

  /** Every call in `calls` from index `from` on that names a key names one of `owner`'s keys. */
  ghost predicate OwnKeysOnly(calls: seq<Call>, from: nat, owner: int) {
    forall i :: from <= i < |calls| ==>
      (calls[i].CacheGet? || calls[i].CacheSet? || calls[i].CacheDel?) ==> calls[i].key.owner == owner
  }

  // ---------------------------------------------------------------------------
  // The queries, as functions of the table
  // ---------------------------------------------------------------------------

  /** The rows of one owner, in table order (`WHERE user_id = $1`). */
  function OwnedBy(table: seq<Row>, owner: int): seq<Row>
    decreases |table|
  {
    if |table| == 0 then []
    else
      var last := table[|table| - 1];
      OwnedBy(table[..|table| - 1], owner) + (if last.userId == owner then [last] else [])
  }

  function Reverse(rows: seq<Row>): seq<Row>
    decreases |rows|
  {
    if |rows| == 0 then [] else [rows[|rows| - 1]] + Reverse(rows[..|rows| - 1])
  }

  /**
   * `SELECT * FROM portfolio WHERE user_id = $1 ORDER BY created_at DESC`:
   * rows are appended in creation order, so newest first is table order reversed.
   */
  function StocksQuery(table: seq<Row>, owner: int): seq<Row> {
    Reverse(OwnedBy(table, owner))
  }

  function Holding(r: Row): real {
    r.quantity as real * r.buyPrice
  }

  function SumHoldings(rows: seq<Row>): real
    decreases |rows|
  {
    if |rows| == 0 then 0.0 else SumHoldings(rows[..|rows| - 1]) + Holding(rows[|rows| - 1])
  }

  /** `SELECT COALESCE(SUM(quantity * buy_price), 0) ... WHERE user_id = $1`. */
  function TotalQuery(table: seq<Row>, owner: int): real {
    SumHoldings(OwnedBy(table, owner))
  }

  /** What a key would hold if it were loaded from the table now. */
  function Fresh(k: Key, table: seq<Row>): Payload {
    match k
    case StocksKey(u) => RowsPayload(StocksQuery(table, u))
    case ValueKey(u) => ValuePayload(TotalQuery(table, u))
  }

  /** `WHERE id = $id AND user_id = $owner`. */
  predicate Matches(r: Row, id: int, owner: int) {
    r.id == id && r.userId == owner
  }

  /** The rows an UPDATE or DELETE with this id and owner touches, in table order. */
  function MatchingRows(table: seq<Row>, id: int, owner: int): seq<Row>
    decreases |table|
  {
    if |table| == 0 then []
    else
      var last := table[|table| - 1];
      MatchingRows(table[..|table| - 1], id, owner) + (if Matches(last, id, owner) then [last] else [])
  }

  function Updated(r: Row, input: StockInput): Row {
    r.(ticker := input.ticker, quantity := input.quantity, buyPrice := input.buyPrice)
  }

  /** The table after `UPDATE portfolio SET ticker, quantity, buy_price WHERE id AND user_id`. */
  function UpdateRows(table: seq<Row>, id: int, owner: int, input: StockInput): seq<Row> {
    seq(|table|, i requires 0 <= i < |table| =>
      if Matches(table[i], id, owner) then Updated(table[i], input) else table[i])
  }

  /** The rows `UPDATE ... RETURNING *` returns. */
  function UpdatedRows(matched: seq<Row>, input: StockInput): seq<Row> {
    seq(|matched|, i requires 0 <= i < |matched| => Updated(matched[i], input))
  }

  /** The table after `DELETE FROM portfolio WHERE id AND user_id`. */
  function DeleteRows(table: seq<Row>, id: int, owner: int): seq<Row>
    decreases |table|
  {
    if |table| == 0 then []
    else
      var last := table[|table| - 1];
      DeleteRows(table[..|table| - 1], id, owner) + (if Matches(last, id, owner) then [] else [last])
  }

  // ---------------------------------------------------------------------------
  // Properties of the queries
  // ---------------------------------------------------------------------------

  /** The owner's rows are exactly the table's rows with that owner. */
  lemma {:induction false} OwnedByMembers(table: seq<Row>, owner: int, r: Row)
    ensures r in OwnedBy(table, owner) <==> r in table && r.userId == owner
    decreases |table|
  {
    if |table| > 0 {
      var init := table[..|table| - 1];
      OwnedByMembers(init, owner, r);
      assert table == init + [table[|table| - 1]];
    }
  }

  lemma {:induction false} ReverseAt(rows: seq<Row>, i: int)
    requires 0 <= i < |rows|
    ensures |Reverse(rows)| == |rows|
    ensures Reverse(rows)[i] == rows[|rows| - 1 - i]
    decreases |rows|
  {
    if i > 0 {
      ReverseAt(rows[..|rows| - 1], i - 1);
    } else {
      ReverseLength(rows[..|rows| - 1]);
    }
  }

  lemma {:induction false} ReverseLength(rows: seq<Row>)
    ensures |Reverse(rows)| == |rows|
    decreases |rows|
  {
    if |rows| > 0 {
      ReverseLength(rows[..|rows| - 1]);
    }
  }

  /** Row `a` was created no later than row `b`. */
  predicate InOrder(a: Row, b: Row) {
    a.createdAt <= b.createdAt
  }

  /**
   * Rows in the order they were created. The quantifier fires only on
   * `InOrder` terms, so a proof asks for the pairs it needs.
   */
  ghost predicate Chronological(rows: seq<Row>) {
    forall i, j {:trigger InOrder(rows[i], rows[j])} :: 0 <= i < j < |rows| ==> InOrder(rows[i], rows[j])
  }

  /** Keeping a subsequence of a chronological table keeps it chronological. */
  lemma {:induction false} OwnedByChronological(table: seq<Row>, owner: int)
    requires Chronological(table)
    ensures Chronological(OwnedBy(table, owner))
    ensures forall i :: 0 <= i < |OwnedBy(table, owner)| ==>
      exists j :: 0 <= j < |table| && OwnedBy(table, owner)[i] == table[j]
    decreases |table|
  {
    if |table| > 0 {
      var init := table[..|table| - 1];
      var last := table[|table| - 1];
      OwnedByChronological(init, owner);
      var o := OwnedBy(init, owner);
      forall i | 0 <= i < |o|
        ensures o[i].createdAt <= last.createdAt
      {
        var j :| 0 <= j < |init| && o[i] == init[j];
        assert table[j] == init[j];
        assert InOrder(table[j], table[|table| - 1]);
      }
      forall i | 0 <= i < |OwnedBy(table, owner)|
        ensures exists j :: 0 <= j < |table| && OwnedBy(table, owner)[i] == table[j]
      {
        if i < |o| {
          var j :| 0 <= j < |init| && o[i] == init[j];
          assert OwnedBy(table, owner)[i] == table[j];
        } else {
          assert OwnedBy(table, owner)[i] == table[|table| - 1];
        }
      }
    }
  }

  /** On a chronological table the holdings list is newest first. */
  lemma StocksQueryNewestFirst(table: seq<Row>, owner: int)
    requires Chronological(table)
    ensures forall i, j :: 0 <= i < j < |StocksQuery(table, owner)| ==>
      StocksQuery(table, owner)[i].createdAt >= StocksQuery(table, owner)[j].createdAt
  {
    var o := OwnedBy(table, owner);
    OwnedByChronological(table, owner);
    ReverseLength(o);
    forall i, j | 0 <= i < j < |StocksQuery(table, owner)|
      ensures StocksQuery(table, owner)[i].createdAt >= StocksQuery(table, owner)[j].createdAt
    {
      ReverseAt(o, i);
      ReverseAt(o, j);
      assert InOrder(o[|o| - 1 - j], o[|o| - 1 - i]);
    }
  }

  /** An owner with no rows is worth 0 (the COALESCE default). */
  lemma {:induction false} TotalQueryNoRows(table: seq<Row>, owner: int)
    requires forall i :: 0 <= i < |table| ==> table[i].userId != owner
    ensures OwnedBy(table, owner) == []
    ensures TotalQuery(table, owner) == 0.0
    decreases |table|
  {
    if |table| > 0 {
      TotalQueryNoRows(table[..|table| - 1], owner);
    }
  }

  /** Appending a row adds its holding to its owner's total and changes no other owner's rows. */
  lemma InsertEffect(table: seq<Row>, r: Row, owner: int)
    ensures r.userId == owner ==> OwnedBy(table + [r], owner) == OwnedBy(table, owner) + [r]
    ensures r.userId == owner ==> TotalQuery(table + [r], owner) == TotalQuery(table, owner) + Holding(r)
    ensures r.userId != owner ==> OwnedBy(table + [r], owner) == OwnedBy(table, owner)
  {
    assert (table + [r])[..|table|] == table;
    var o := OwnedBy(table, owner) + [r];
    assert o[..|o| - 1] == OwnedBy(table, owner);
  }

  /** An UPDATE scoped to `owner` leaves every other owner's rows as they were. */
  lemma {:induction false} UpdateKeepsOthers(table: seq<Row>, id: int, owner: int, input: StockInput, other: int)
    requires other != owner
    ensures OwnedBy(UpdateRows(table, id, owner, input), other) == OwnedBy(table, other)
    decreases |table|
  {
    var t' := UpdateRows(table, id, owner, input);
    if |table| > 0 {
      var init := table[..|table| - 1];
      UpdateKeepsOthers(init, id, owner, input, other);
      assert t'[..|t'| - 1] == UpdateRows(init, id, owner, input);
      assert t'[|t'| - 1].userId == other <==> table[|table| - 1].userId == other;
    }
  }

  /** A DELETE scoped to `owner` leaves every other owner's rows as they were. */
  lemma {:induction false} DeleteKeepsOthers(table: seq<Row>, id: int, owner: int, other: int)
    requires other != owner
    ensures OwnedBy(DeleteRows(table, id, owner), other) == OwnedBy(table, other)
    decreases |table|
  {
    if |table| > 0 {
      var init := table[..|table| - 1];
      var last := table[|table| - 1];
      DeleteKeepsOthers(init, id, owner, other);
      var d := DeleteRows(init, id, owner);
      assert OwnedBy(table, other) == OwnedBy(init, other) + (if last.userId == other then [last] else []);
      if Matches(last, id, owner) {
        assert DeleteRows(table, id, owner) == d;
      } else {
        assert DeleteRows(table, id, owner) == d + [last];
        assert (d + [last])[..|d|] == d;
        assert OwnedBy(d + [last], other) == OwnedBy(d, other) + (if last.userId == other then [last] else []);
      }
    }
  }

  /** A DELETE removes exactly the matching rows: what is kept and what is returned partition the table. */
  lemma {:induction false} DeletePartition(table: seq<Row>, id: int, owner: int)
    ensures |DeleteRows(table, id, owner)| + |MatchingRows(table, id, owner)| == |table|
    ensures forall r :: r in DeleteRows(table, id, owner) ==> r in table && !Matches(r, id, owner)
    ensures forall r :: r in MatchingRows(table, id, owner) ==> r in table && Matches(r, id, owner)
    decreases |table|
  {
    if |table| > 0 {
      var init := table[..|table| - 1];
      DeletePartition(init, id, owner);
      assert table == init + [table[|table| - 1]];
    }
  }

  /** No row matches exactly when the matching rows are empty: then UPDATE and DELETE change nothing. */
  lemma {:induction false} NoMatchNoChange(table: seq<Row>, id: int, owner: int, input: StockInput)
    ensures MatchingRows(table, id, owner) == [] <==> forall i :: 0 <= i < |table| ==> !Matches(table[i], id, owner)
    ensures MatchingRows(table, id, owner) == [] ==>
      UpdateRows(table, id, owner, input) == table && DeleteRows(table, id, owner) == table
    decreases |table|
  {
    if |table| > 0 {
      var init := table[..|table| - 1];
      var last := table[|table| - 1];
      NoMatchNoChange(init, id, owner, input);
      assert table == init + [last];
      if MatchingRows(table, id, owner) == [] {
        assert MatchingRows(init, id, owner) == [] && !Matches(last, id, owner);
        assert DeleteRows(table, id, owner) == init + [last];
        forall i | 0 <= i < |table| ensures UpdateRows(table, id, owner, input)[i] == table[i] {
          if i < |init| {
            assert table[i] == init[i];
          }
        }
      }
    }
  }

  // ---------------------------------------------------------------------------
  // The server state and its handlers
  // ---------------------------------------------------------------------------

  class PortfolioServer {
    /** The cache: at most one entry per key, with its expiry time. */
    var cache: map<Key, Entry>
    /** The `portfolio` table, in insertion order. */
    var table: seq<Row>
    /** The clock, in seconds. */
    var now: int
    /** The next value of the table's id sequence. */
    var nextId: int
    /** Every external call made so far, in order. */
    ghost var log: seq<Call>

    ghost predicate Valid()
      reads this
    {
      && (forall k :: k in cache ==> Fits(k, cache[k].payload))
      && Chronological(table)
      && (forall r :: r in table ==> r.createdAt <= now && r.id < nextId)
    }

    /** A key the cache would return: present and not yet expired. */
    ghost predicate Live(k: Key)
      reads this
    {
      k in cache && now < cache[k].expiresAt
    }

    /** Every live entry holds what loading its key from the table would give now. */
    ghost predicate Coherent()
      reads this
    {
      forall k :: k in cache && now < cache[k].expiresAt ==> cache[k].payload == Fresh(k, table)
    }

    constructor ()
      ensures Valid() && Coherent()
      ensures cache == map[] && table == [] && now == 0 && nextId == 1 && log == []
    {
      cache := map[];
      table := [];
      now := 0;
      nextId := 1;
      log := [];
    }

    /** Time passes; entries whose expiry is reached stop being live. */
    method Advance(seconds: nat)
      requires Valid()
      modifies this`now
      ensures Valid()
      ensures now == old(now) + seconds
      ensures forall k :: Live(k) ==> old(Live(k))
      ensures forall k :: old(Live(k)) ==> (Live(k) <==> old(now) + seconds < cache[k].expiresAt)
      ensures old(Coherent()) ==> Coherent()
    {
      now := now + seconds;
    }

    // --- the cache client ----------------------------------------------------

    /** `redisClient.get(key)`: the live payload under the key; an expired entry reads as absent. */
    method Get(k: Key, fault: Fault, step: nat) returns (err: Option<string>, found: Option<Payload>)
      modifies this`log
      ensures log == old(log) + [CacheGet(k)]
      ensures err == (if Throws(fault, step) then Some(fault.message) else None)
      ensures found == (if err.None? && Live(k) then Some(cache[k].payload) else None)
    {
      log := log + [CacheGet(k)];
      if Throws(fault, step) {
        return Some(fault.message), None;
      }
      err := None;
      found := if k in cache && now < cache[k].expiresAt then Some(cache[k].payload) else None;
    }

    /** `redisClient.setEx(key, CACHE_TTL, value)`: replaces the entry; it lives `CacheTtl` seconds. */
    method SetEx(k: Key, p: Payload, fault: Fault, step: nat) returns (err: Option<string>)
      modifies this`cache, this`log
      ensures log == old(log) + [CacheSet(k, CacheTtl)]
      ensures err == (if Throws(fault, step) then Some(fault.message) else None)
      ensures cache == if err.Some? then old(cache) else old(cache)[k := Entry(p, now + CacheTtl)]
    {
      log := log + [CacheSet(k, CacheTtl)];
      if Throws(fault, step) {
        return Some(fault.message);
      }
      err := None;
      cache := cache[k := Entry(p, now + CacheTtl)];
    }

    /** `redisClient.del(key)`. */
    method Del(k: Key, fault: Fault, step: nat) returns (err: Option<string>)
      modifies this`cache, this`log
      ensures log == old(log) + [CacheDel(k)]
      ensures err == (if Throws(fault, step) then Some(fault.message) else None)
      ensures cache == if err.Some? then old(cache) else old(cache) - {k}
    {
      log := log + [CacheDel(k)];
      if Throws(fault, step) {
        return Some(fault.message);
      }
      err := None;
      cache := cache - {k};
    }

    /**
     * The two deletes every successful write issues: the list key, then the
     * value key. The first error stops the sequence.
     */
    method Invalidate(owner: int, fault: Fault, step: nat) returns (err: Option<string>)
      modifies this`cache, this`log
      ensures log == old(log) + [CacheDel(StocksKey(owner))] + (if Throws(fault, step) then [] else [CacheDel(ValueKey(owner))])
      ensures err == (if Throws(fault, step) || Throws(fault, step + 1) then Some(fault.message) else None)
      ensures cache ==
        if Throws(fault, step) then old(cache)
        else if Throws(fault, step + 1) then old(cache) - {StocksKey(owner)}
        else old(cache) - {StocksKey(owner), ValueKey(owner)}
    {
      err := Del(StocksKey(owner), fault, step);
      if err.Some? {
        return;
      }
      err := Del(ValueKey(owner), fault, step + 1);
    }

    // --- the handlers --------------------------------------------------------

    /** `getStocks`: the caller's holdings, newest first, through the cache. */
    method GetStocks(user: Option<int>, fault: Fault) returns (reply: Reply)
      requires Valid()
      modifies this`cache, this`log
      ensures Valid()
      // 401 before anything is touched
      ensures !SignedIn(user) ==> reply == Unauthorized && cache == old(cache) && log == old(log)
      ensures SignedIn(user) ==> OwnKeysOnly(log, |old(log)|, user.value) && SameForOthers(old(cache), cache, user.value)
      // a failed lookup is not absorbed
      ensures SignedIn(user) && Throws(fault, 0) ==>
        reply == ServerError(fault.message) && cache == old(cache) && log == old(log) + [CacheGet(StocksKey(user.value))]
      // a hit answers from the cache, with no query and no write
      ensures SignedIn(user) && !Throws(fault, 0) && old(Live(StocksKey(user.value))) ==>
        && reply == RowsReply(old(cache)[StocksKey(user.value)].payload.rows)
        && cache == old(cache) && log == old(log) + [CacheGet(StocksKey(user.value))]
      // a miss loads the owner's rows and stores exactly what it returns
      ensures SignedIn(user) && !Throws(fault, 0) && !old(Live(StocksKey(user.value))) ==>
        && log == old(log) + [CacheGet(StocksKey(user.value)), SelectRows(user.value)]
                          + (if Throws(fault, 1) then [] else [CacheSet(StocksKey(user.value), CacheTtl)])
        && (Throws(fault, 1) || Throws(fault, 2) ==> reply == ServerError(fault.message) && cache == old(cache))
        && (!Throws(fault, 1) && !Throws(fault, 2) ==>
              && reply == RowsReply(StocksQuery(table, user.value))
              && cache == old(cache)[StocksKey(user.value) := Entry(RowsPayload(StocksQuery(table, user.value)), now + CacheTtl)])
      // with a coherent cache and no fault the answer is the table's current content
      ensures SignedIn(user) && fault == NoFault && old(Coherent()) ==> reply == RowsReply(StocksQuery(table, user.value))
      ensures old(Coherent()) ==> Coherent()
    {
      if !SignedIn(user) {
        return Unauthorized;
      }
      var owner := user.value;
      var key := StocksKey(owner);
      var err, cached := Get(key, fault, 0);
      if err.Some? {
        return ServerError(err.value);
      }
      if cached.Some? {
        return RowsReply(cached.value.rows);
      }
      var rows;
      err, rows := SelectOwned(owner, fault, 1);
      if err.Some? {
        return ServerError(err.value);
      }
      err := SetEx(key, RowsPayload(rows), fault, 2);
      if err.Some? {
        return ServerError(err.value);
      }
      reply := RowsReply(rows);
    }

    /** `getPortfolioValue`: the caller's summed holdings, through the cache. */
    method GetPortfolioValue(user: Option<int>, fault: Fault) returns (reply: Reply)
      requires Valid()
      modifies this`cache, this`log
      ensures Valid()
      ensures !SignedIn(user) ==> reply == Unauthorized && cache == old(cache) && log == old(log)
      ensures SignedIn(user) ==> OwnKeysOnly(log, |old(log)|, user.value) && SameForOthers(old(cache), cache, user.value)
      ensures SignedIn(user) && Throws(fault, 0) ==>
        reply == ServerError(fault.message) && cache == old(cache) && log == old(log) + [CacheGet(ValueKey(user.value))]
      ensures SignedIn(user) && !Throws(fault, 0) && old(Live(ValueKey(user.value))) ==>
        && reply == ValueReply(old(cache)[ValueKey(user.value)].payload.total)
        && cache == old(cache) && log == old(log) + [CacheGet(ValueKey(user.value))]
      ensures SignedIn(user) && !Throws(fault, 0) && !old(Live(ValueKey(user.value))) ==>
        && log == old(log) + [CacheGet(ValueKey(user.value)), SelectTotal(user.value)]
                          + (if Throws(fault, 1) then [] else [CacheSet(ValueKey(user.value), CacheTtl)])
        && (Throws(fault, 1) || Throws(fault, 2) ==> reply == ServerError(fault.message) && cache == old(cache))
        && (!Throws(fault, 1) && !Throws(fault, 2) ==>
              && reply == ValueReply(TotalQuery(table, user.value))
              && cache == old(cache)[ValueKey(user.value) := Entry(ValuePayload(TotalQuery(table, user.value)), now + CacheTtl)])
      ensures SignedIn(user) && fault == NoFault && old(Coherent()) ==> reply == ValueReply(TotalQuery(table, user.value))
      ensures old(Coherent()) ==> Coherent()
    {
      if !SignedIn(user) {
        return Unauthorized;
      }
      var owner := user.value;
      var key := ValueKey(owner);
      var err, cached := Get(key, fault, 0);
      if err.Some? {
        return ServerError(err.value);
      }
      if cached.Some? {
        return ValueReply(cached.value.total);
      }
      var total;
      err, total := SelectSum(owner, fault, 1);
      if err.Some? {
        return ServerError(err.value);
      }
      err := SetEx(key, ValuePayload(total), fault, 2);
      if err.Some? {
        return ServerError(err.value);
      }
      reply := ValueReply(total);
    }

    /** `createStock`: insert a row for the caller, then invalidate both of the caller's keys. */
    method CreateStock(user: Option<int>, input: StockInput, fault: Fault) returns (reply: Reply)
      requires Valid()
      modifies this`cache, this`table, this`nextId, this`log
      ensures Valid()
      ensures !SignedIn(user) ==>
        reply == Unauthorized && cache == old(cache) && table == old(table) && nextId == old(nextId) && log == old(log)
      ensures SignedIn(user) ==> OwnKeysOnly(log, |old(log)|, user.value) && SameForOthers(old(cache), cache, user.value)
      // a failed insert changes nothing
      ensures SignedIn(user) && Throws(fault, 0) ==>
        && reply == ServerError(fault.message) && cache == old(cache) && table == old(table) && nextId == old(nextId)
        && log == old(log) + [Insert(user.value)]
      // a committed insert is followed by the two deletes; an error in either is still a 500
      ensures SignedIn(user) && !Throws(fault, 0) ==>
        var row := Row(old(nextId), user.value, input.ticker, input.quantity, input.buyPrice, now);
        && table == old(table) + [row] && nextId == old(nextId) + 1
        && log == old(log) + [Insert(user.value), CacheDel(StocksKey(user.value))]
                          + (if Throws(fault, 1) then [] else [CacheDel(ValueKey(user.value))])
        && cache == (if Throws(fault, 1) then old(cache)
                     else if Throws(fault, 2) then old(cache) - {StocksKey(user.value)}
                     else old(cache) - {StocksKey(user.value), ValueKey(user.value)})
        && reply == (if Throws(fault, 1) || Throws(fault, 2) then ServerError(fault.message) else RowReply(row))
      ensures fault == NoFault && old(Coherent()) ==> Coherent()
    {
      if !SignedIn(user) {
        return Unauthorized;
      }
      var owner := user.value;
      var err, row := InsertRow(owner, input, fault, 0);
      if err.Some? {
        return ServerError(err.value);
      }
      err := Invalidate(owner, fault, 1);
      if err.Some? {
        return ServerError(err.value);
      }
      reply := RowReply(row);
      if fault == NoFault && old(Coherent()) {
        forall k | k in cache && now < cache[k].expiresAt
          ensures cache[k].payload == Fresh(k, table)
        {
          InsertEffect(old(table), row, k.owner);
        }
      }
    }

    /** `updateStock`: update the caller's row with this id; 404 when there is none. */
    method UpdateStock(user: Option<int>, id: int, input: StockInput, fault: Fault) returns (reply: Reply)
      requires Valid()
      modifies this`cache, this`table, this`log
      ensures Valid()
      ensures !SignedIn(user) ==> reply == Unauthorized && cache == old(cache) && table == old(table) && log == old(log)
      ensures SignedIn(user) ==> OwnKeysOnly(log, |old(log)|, user.value) && SameForOthers(old(cache), cache, user.value)
      ensures SignedIn(user) && Throws(fault, 0) ==>
        && reply == ServerError(fault.message) && cache == old(cache) && table == old(table)
        && log == old(log) + [UpdateWhere(id, user.value)]
      // nothing of the caller's matched: 404, and the cache is untouched
      ensures SignedIn(user) && !Throws(fault, 0) && MatchingRows(old(table), id, user.value) == [] ==>
        && reply == NotFound && cache == old(cache) && table == old(table)
        && log == old(log) + [UpdateWhere(id, user.value)]
      ensures SignedIn(user) && !Throws(fault, 0) && MatchingRows(old(table), id, user.value) != [] ==>
        && table == UpdateRows(old(table), id, user.value, input)
        && log == old(log) + [UpdateWhere(id, user.value), CacheDel(StocksKey(user.value))]
                          + (if Throws(fault, 1) then [] else [CacheDel(ValueKey(user.value))])
        && cache == (if Throws(fault, 1) then old(cache)
                     else if Throws(fault, 2) then old(cache) - {StocksKey(user.value)}
                     else old(cache) - {StocksKey(user.value), ValueKey(user.value)})
        && reply == (if Throws(fault, 1) || Throws(fault, 2) then ServerError(fault.message)
                     else RowReply(Updated(MatchingRows(old(table), id, user.value)[0], input)))
      ensures fault == NoFault && old(Coherent()) ==> Coherent()
    {
      if !SignedIn(user) {
        return Unauthorized;
      }
      var owner := user.value;
      var err, rows := UpdateOwned(id, owner, input, fault, 0);
      if err.Some? {
        return ServerError(err.value);
      }
      if |rows| == 0 {
        NoMatchNoChange(old(table), id, owner, input);
        return NotFound;
      }
      err := Invalidate(owner, fault, 1);
      if err.Some? {
        return ServerError(err.value);
      }
      reply := RowReply(rows[0]);
      if fault == NoFault && old(Coherent()) {
        forall k | k in cache && now < cache[k].expiresAt
          ensures cache[k].payload == Fresh(k, table)
        {
          UpdateKeepsOthers(old(table), id, owner, input, k.owner);
        }
      }
    }

    /** `deleteStock`: delete the caller's row with this id; 404 when there is none. */
    method DeleteStock(user: Option<int>, id: int, fault: Fault) returns (reply: Reply)
      requires Valid()
      modifies this`cache, this`table, this`log
      ensures Valid()
      ensures !SignedIn(user) ==> reply == Unauthorized && cache == old(cache) && table == old(table) && log == old(log)
      ensures SignedIn(user) ==> OwnKeysOnly(log, |old(log)|, user.value) && SameForOthers(old(cache), cache, user.value)
      ensures SignedIn(user) && Throws(fault, 0) ==>
        && reply == ServerError(fault.message) && cache == old(cache) && table == old(table)
        && log == old(log) + [DeleteWhere(id, user.value)]
      ensures SignedIn(user) && !Throws(fault, 0) && MatchingRows(old(table), id, user.value) == [] ==>
        && reply == NotFound && cache == old(cache) && table == old(table)
        && log == old(log) + [DeleteWhere(id, user.value)]
      ensures SignedIn(user) && !Throws(fault, 0) && MatchingRows(old(table), id, user.value) != [] ==>
        && table == DeleteRows(old(table), id, user.value)
        && log == old(log) + [DeleteWhere(id, user.value), CacheDel(StocksKey(user.value))]
                          + (if Throws(fault, 1) then [] else [CacheDel(ValueKey(user.value))])
        && cache == (if Throws(fault, 1) then old(cache)
                     else if Throws(fault, 2) then old(cache) - {StocksKey(user.value)}
                     else old(cache) - {StocksKey(user.value), ValueKey(user.value)})
        && reply == (if Throws(fault, 1) || Throws(fault, 2) then ServerError(fault.message) else DeletedReply)
      ensures fault == NoFault && old(Coherent()) ==> Coherent()
    {
      if !SignedIn(user) {
        return Unauthorized;
      }
      var owner := user.value;
      var err, rows := DeleteOwned(id, owner, fault, 0);
      if err.Some? {
        return ServerError(err.value);
      }
      if |rows| == 0 {
        NoMatchNoChange(old(table), id, owner, StockInput("", 0, 0.0));
        return NotFound;
      }
      err := Invalidate(owner, fault, 1);
      if err.Some? {
        return ServerError(err.value);
      }
      reply := DeletedReply;
      if fault == NoFault && old(Coherent()) {
        forall k | k in cache && now < cache[k].expiresAt
          ensures cache[k].payload == Fresh(k, table)
        {
          DeleteKeepsOthers(old(table), id, owner, k.owner);
        }
      }
    }

    // --- the table -----------------------------------------------------------

    /** The holdings query. */
    method SelectOwned(owner: int, fault: Fault, step: nat) returns (err: Option<string>, rows: seq<Row>)
      modifies this`log
      ensures log == old(log) + [SelectRows(owner)]
      ensures err == (if Throws(fault, step) then Some(fault.message) else None)
      ensures err.None? ==> rows == StocksQuery(table, owner)
    {
      log := log + [SelectRows(owner)];
      if Throws(fault, step) {
        return Some(fault.message), [];
      }
      return None, StocksQuery(table, owner);
    }

    /** The value query. */
    method SelectSum(owner: int, fault: Fault, step: nat) returns (err: Option<string>, total: real)
      modifies this`log
      ensures log == old(log) + [SelectTotal(owner)]
      ensures err == (if Throws(fault, step) then Some(fault.message) else None)
      ensures err.None? ==> total == TotalQuery(table, owner)
    {
      log := log + [SelectTotal(owner)];
      if Throws(fault, step) {
        return Some(fault.message), 0.0;
      }
      return None, TotalQuery(table, owner);
    }

    /** `INSERT ... RETURNING *`: the new row takes the next id and the current time. */
    method InsertRow(owner: int, input: StockInput, fault: Fault, step: nat) returns (err: Option<string>, row: Row)
      requires Valid()
      modifies this`table, this`nextId, this`log
      ensures Valid()
      ensures log == old(log) + [Insert(owner)]
      ensures err == (if Throws(fault, step) then Some(fault.message) else None)
      ensures err.Some? ==> table == old(table) && nextId == old(nextId)
      ensures err.None? ==>
        && row == Row(old(nextId), owner, input.ticker, input.quantity, input.buyPrice, now)
        && table == old(table) + [row] && nextId == old(nextId) + 1
    {
      log := log + [Insert(owner)];
      row := Row(nextId, owner, input.ticker, input.quantity, input.buyPrice, now);
      if Throws(fault, step) {
        return Some(fault.message), row;
      }
      err := None;
      table := table + [row];
      nextId := nextId + 1;
    }

    /** `UPDATE ... WHERE id = $4 AND user_id = $5 RETURNING *`. */
    method UpdateOwned(id: int, owner: int, input: StockInput, fault: Fault, step: nat) returns (err: Option<string>, rows: seq<Row>)
      requires Valid()
      modifies this`table, this`log
      ensures Valid()
      ensures log == old(log) + [UpdateWhere(id, owner)]
      ensures err == (if Throws(fault, step) then Some(fault.message) else None)
      ensures err.Some? ==> table == old(table)
      ensures err.None? ==>
        && rows == UpdatedRows(MatchingRows(old(table), id, owner), input)
        && table == UpdateRows(old(table), id, owner, input)
    {
      log := log + [UpdateWhere(id, owner)];
      if Throws(fault, step) {
        return Some(fault.message), [];
      }
      err := None;
      rows := UpdatedRows(MatchingRows(table, id, owner), input);
      table := UpdateRows(table, id, owner, input);
      forall i, j | 0 <= i < j < |table| ensures InOrder(table[i], table[j]) {
        assert InOrder(old(table)[i], old(table)[j]);
      }
    }

    /** `DELETE ... WHERE id = $1 AND user_id = $2 RETURNING *`. */
    method DeleteOwned(id: int, owner: int, fault: Fault, step: nat) returns (err: Option<string>, rows: seq<Row>)
      requires Valid()
      modifies this`table, this`log
      ensures Valid()
      ensures log == old(log) + [DeleteWhere(id, owner)]
      ensures err == (if Throws(fault, step) then Some(fault.message) else None)
      ensures err.Some? ==> table == old(table)
      ensures err.None? ==>
        && rows == MatchingRows(old(table), id, owner)
        && table == DeleteRows(old(table), id, owner)
    {
      log := log + [DeleteWhere(id, owner)];
      if Throws(fault, step) {
        return Some(fault.message), [];
      }
      err := None;
      rows := MatchingRows(table, id, owner);
      DeleteKeepsOrder(table, id, owner);
      table := DeleteRows(table, id, owner);
    }
  }

  /** Deleting rows keeps the remaining ones, in order. */
  lemma {:induction false} DeleteKeepsOrder(table: seq<Row>, id: int, owner: int)
    ensures forall r :: r in DeleteRows(table, id, owner) ==> r in table
    ensures Chronological(table) ==> Chronological(DeleteRows(table, id, owner))
    decreases |table|
  {
    if |table| > 0 {
      var init := table[..|table| - 1];
      var last := table[|table| - 1];
      DeleteKeepsOrder(init, id, owner);
      var d0 := DeleteRows(init, id, owner);
      assert table == init + [last];
      if Chronological(table) {
        forall r | r in d0
          ensures r.createdAt <= last.createdAt
        {
          var j :| 0 <= j < |init| && init[j] == r;
          assert table[j] == r;
          assert InOrder(table[j], table[|table| - 1]);
        }
      }
    }
  }

  // ---------------------------------------------------------------------------
  // Request sequences
  // ---------------------------------------------------------------------------

  /** A create that meets no fault appends the caller's row and leaves no live value entry for the caller. */
  method CreateWithoutFault(server: PortfolioServer, owner: int, input: StockInput) returns (created: Reply)
    requires SignedIn(Some(owner))
    requires server.Valid()
    modifies server`cache, server`table, server`nextId, server`log
    ensures server.Valid()
    ensures created.RowReply? && created.row.userId == owner
    ensures created.row.ticker == input.ticker && created.row.quantity == input.quantity && created.row.buyPrice == input.buyPrice
    ensures server.table == old(server.table) + [created.row]
    ensures !server.Live(ValueKey(owner))
  {
    created := server.CreateStock(Some(owner), input, NoFault);
  }

  /** A value read that meets no fault and finds no live entry answers the current total. */
  method ReadValueCold(server: PortfolioServer, owner: int) returns (total: Reply)
    requires SignedIn(Some(owner))
    requires server.Valid() && !server.Live(ValueKey(owner))
    modifies server`cache, server`log
    ensures total == ValueReply(TotalQuery(server.table, owner))
  {
    total := server.GetPortfolioValue(Some(owner), NoFault);
  }

  /**
   * Read-your-writes: after a create that meets no fault, the owner's next
   * value read includes the new holding, whatever the cache held before.
   */
  method ReadAfterCreate(server: PortfolioServer, owner: int, input: StockInput) returns (created: Reply, total: Reply)
    requires SignedIn(Some(owner))
    requires server.Valid()
    modifies server`cache, server`table, server`nextId, server`log
    ensures created.RowReply? && created.row.userId == owner
    ensures created.row.ticker == input.ticker && created.row.quantity == input.quantity && created.row.buyPrice == input.buyPrice
    ensures total == ValueReply(TotalQuery(old(server.table), owner) + Holding(created.row))
  {
    created := CreateWithoutFault(server, owner, input);
    InsertEffect(old(server.table), created.row, owner);
    total := ReadValueCold(server, owner);
  }

  /**
   * A cold read (no live entry, whether or not an expired one is still
   * stored) loads and caches the value; a read within the TTL answers
   * the same value from the cache, with a single lookup and no query.
   */
  method WarmRead(server: PortfolioServer, owner: int, wait: nat) returns (cold: Reply, warm: Reply, ghost warmCalls: seq<Call>)
    requires SignedIn(Some(owner)) && wait < CacheTtl
    requires server.Valid() && !server.Live(ValueKey(owner))
    modifies server`cache, server`log, server`now
    ensures cold == ValueReply(TotalQuery(server.table, owner)) && warm == cold
    ensures warmCalls == [CacheGet(ValueKey(owner))]
  {
    cold := server.GetPortfolioValue(Some(owner), NoFault);
    server.Advance(wait);
    ghost var before := server.log;
    warm := server.GetPortfolioValue(Some(owner), NoFault);
    warmCalls := server.log[|before|..];
  }

  /**
   * A delete that fails after a committed insert is not absorbed: the request
   * gets 500, the list entry survives, and reads keep returning it until its
   * TTL runs out; the first read after that loads the inserted row.
   */
  method StaleAfterFailedInvalidation() returns (first: Reply, write: Reply, stale: Reply, expired: Reply)
    ensures first == RowsReply([]) && stale == RowsReply([])
    ensures write == ServerError("connection lost")
    ensures expired == RowsReply([Row(1, 7, "AAPL", 10, 150.0, 0)])
  {
    var server := new PortfolioServer();
    first := server.GetStocks(Some(7), NoFault);
    write := server.CreateStock(Some(7), StockInput("AAPL", 10, 150.0), FailOn(1, "connection lost"));
    assert server.table == [Row(1, 7, "AAPL", 10, 150.0, 0)];
    stale := server.GetStocks(Some(7), NoFault);
    server.Advance(CacheTtl as nat);
    OneRowQuery(Row(1, 7, "AAPL", 10, 150.0, 0));
    expired := server.GetStocks(Some(7), NoFault);
  }

  /** A table of one row: its owner's holdings are that row, worth its holding. */
  lemma OneRowQuery(r: Row)
    ensures StocksQuery([r], r.userId) == [r]
    ensures TotalQuery([r], r.userId) == Holding(r)
  {
    InsertEffect([], r, r.userId);
    assert [] + [r] == [r];
    assert [r][..0] == [];
    assert Reverse([r]) == [r] + Reverse([]);
  }
}
