/** Keeping a local order book in step with the exchange: the clients of rust_cpp/md4.cpp and
    rust_cpp/src/main.rs.

    A snapshot fixes the book at some update id; a stream of updates, each covering a range
    of ids, is bridged to it and followed.  Against an exchange given by its book at every
    id, the local book is the exchange's at `lastId` at every moment, although the first
    update accepted may reach back before the snapshot.
    */
module BookSync {

  /** One side of a book: the size at each price. */
  type Levels = map<real, real>

  datatype Delta = Delta(price: real, size: real)

  datatype Book = Book(bids: Levels, asks: Levels)

  /** A depth update: the ids `first` to `last`; `prev` is 0 when the message has none. */
  datatype Update = Update(first: int, last: int, prev: int, bids: seq<Delta>, asks: seq<Delta>)

  /** What a client holds. */
  datatype Local = Local(book: Book, lastId: int)

  datatype Verdict = Stale | Gap | Applied

  // ---------- The rule of both clients ----------

  function ApplyDeltas(side: Levels, ds: seq<Delta>): Levels
    decreases |ds|
  {
    if ds == [] then side
    else ApplyDeltas(if ds[0].size == 0.0 then side - {ds[0].price} else side[ds[0].price := ds[0].size], ds[1..])
  }

  /** The update joins the ids seen so far. */
  predicate Bridges(u: Update, lastId: int)
  {
    || (u.first <= lastId + 1 <= u.last)
    || (u.prev == lastId && u.prev != 0)
  }

  function Judge(u: Update, lastId: int): Verdict
  {
    if u.last <= lastId then Stale else if Bridges(u, lastId) then Applied else Gap
  }

  function Receive(l: Local, u: Update): Local
  {
    if Judge(u, l.lastId) == Applied
    then Local(Book(ApplyDeltas(l.book.bids, u.bids), ApplyDeltas(l.book.asks, u.asks)), u.last)
    else l
  }

  /** Handle messages up to the first gap. */
  function Follow(l: Local, us: seq<Update>): (r: (Local, nat))
    ensures r.1 <= |us|
    decreases |us|
  {
    if us == [] || Judge(us[0], l.lastId) == Gap then (l, 0)
    else var (l', n) := Follow(Receive(l, us[0]), us[1..]); (l', n + 1)
  }

  // ---------- The exchange ----------

  /** The book after each update id. */
  type Exchange = int -> Book

  function Size(side: Levels, price: real): real
  {
    if price in side then side[price] else 0.0
  }

  predicate Mentions(ds: seq<Delta>, price: real)
  {
    exists i :: 0 <= i < |ds| && ds[i].price == price
  }

  /** The size an update leaves at a price it mentions. */
  function LastSize(ds: seq<Delta>, price: real): real
  {
    if ds == [] then 0.0
    else if ds[|ds|-1].price == price then ds[|ds|-1].size
    else LastSize(ds[..|ds|-1], price)
  }

  /** The last id the deltas of an update build on. */
  function Base(u: Update): int
  {
    if u.prev != 0 then u.prev else u.first - 1
  }

  ghost predicate SideHonest(side: int -> Levels, base: int, last: int, ds: seq<Delta>)
  {
    forall price: real ::
      if Mentions(ds, price) then LastSize(ds, price) == Size(side(last), price)
      else forall id | base <= id <= last :: Size(side(id), price) == Size(side(last), price)
  }

  /** Every level changed since the base is mentioned, with its final size. */
  ghost predicate Honest(x: Exchange, u: Update)
  {
    && u.first <= u.last && (u.prev != 0 ==> u.prev < u.first)
    && SideHonest(id => x(id).bids, Base(u), u.last, u.bids)
    && SideHonest(id => x(id).asks, Base(u), u.last, u.asks)
  }

  ghost predicate AllHonest(x: Exchange, us: seq<Update>)
  {
    forall i | 0 <= i < |us| :: Honest(x, us[i])
  }

  predicate Proper(side: Levels)
  {
    forall p | p in side :: side[p] != 0.0
  }

  /** The exchange keeps no empty levels. */
  ghost predicate ProperExchange(x: Exchange)
  {
    forall id :: Proper(x(id).bids) && Proper(x(id).asks)
  }

  ghost predicate Synced(l: Local, x: Exchange)
  {
    l.book == x(l.lastId)
  }

  // ---------- Applying deltas ----------

  lemma {:induction false} DeltasLeaveSizes(side: Levels, ds: seq<Delta>, price: real)
    requires Proper(side)
    ensures Proper(ApplyDeltas(side, ds))
    ensures Size(ApplyDeltas(side, ds), price) == if Mentions(ds, price) then LastSize(ds, price) else Size(side, price)
    decreases |ds|
  {
    if ds == [] {
    } else {
      var next := if ds[0].size == 0.0 then side - {ds[0].price} else side[ds[0].price := ds[0].size];
      DeltasLeaveSizes(next, ds[1..], price);
      FirstDelta(ds, price);
    }
  }

  lemma {:induction false} FirstDelta(ds: seq<Delta>, price: real)
    requires ds != []
    ensures Mentions(ds, price) <==> ds[0].price == price || Mentions(ds[1..], price)
    ensures Mentions(ds[1..], price) ==> LastSize(ds, price) == LastSize(ds[1..], price)
    ensures !Mentions(ds[1..], price) && ds[0].price == price ==> LastSize(ds, price) == ds[0].size
    decreases |ds|
  {
    if Mentions(ds, price) {
      var i :| 0 <= i < |ds| && ds[i].price == price;
      assert i > 0 ==> ds[1..][i - 1].price == price;
    }
    if Mentions(ds[1..], price) {
      var i :| 0 <= i < |ds[1..]| && ds[1..][i].price == price;
      assert ds[i + 1].price == price;
    }
    if |ds| > 1 {
      var front := ds[..|ds|-1];
      assert front[1..] == ds[1..][..|ds|-2];
      assert ds[1..][|ds|-2] == ds[|ds|-1];
      FirstDelta(front, price);
      if !Mentions(ds[1..], price) {
        assert ds[|ds|-1].price != price;
        assert forall i | 0 <= i < |front[1..]| :: front[1..][i] == ds[1..][i];
      } else if ds[|ds|-1].price != price {
        var i :| 0 <= i < |ds[1..]| && ds[1..][i].price == price;
        assert front[1..][i].price == price;
      }
    }
  }

  lemma {:induction false} SideSyncs(side: int -> Levels, base: int, last: int, ds: seq<Delta>, id: int)
    requires SideHonest(side, base, last, ds) && base <= id <= last
    requires Proper(side(id)) && Proper(side(last))
    ensures ApplyDeltas(side(id), ds) == side(last)
  {
    var after := ApplyDeltas(side(id), ds);
    forall p: real
      ensures p in after <==> p in side(last)
      ensures p in after && p in side(last) ==> after[p] == side(last)[p]
    {
      DeltasLeaveSizes(side(id), ds, p);
      assert Size(after, p) == Size(side(last), p);
    }
  }

  // ---------- The local book is the exchange's ----------

  /** The heart of the matter: an honest update that is accepted moves the book from one id
      to another even if it starts before the first. */
  lemma {:induction false} AcceptedUpdateSyncs(l: Local, u: Update, x: Exchange)
    requires ProperExchange(x) && Synced(l, x) && Honest(x, u)
    ensures Synced(Receive(l, u), x)
    ensures Receive(l, u).lastId == if Judge(u, l.lastId) == Applied then u.last else l.lastId
    ensures Judge(u, l.lastId) != Applied ==> Receive(l, u) == l
  {
    if Judge(u, l.lastId) == Applied {
      SideSyncs(id => x(id).bids, Base(u), u.last, u.bids, l.lastId);
      SideSyncs(id => x(id).asks, Base(u), u.last, u.asks, l.lastId);
    }
  }

  lemma {:induction false} FollowSyncs(l: Local, us: seq<Update>, x: Exchange)
    requires ProperExchange(x) && Synced(l, x) && AllHonest(x, us)
    ensures Synced(Follow(l, us).0, x) && Follow(l, us).0.lastId >= l.lastId
    decreases |us|
  {
    if us != [] && Judge(us[0], l.lastId) != Gap {
      AcceptedUpdateSyncs(l, us[0], x);
      FollowSyncs(Receive(l, us[0]), us[1..], x);
    }
  }

  // ---------- When a stream is followed to its end ----------

  /** Nothing is missing between the messages. */
  predicate Contiguous(us: seq<Update>)
  {
    && (forall i | 0 <= i < |us| :: us[i].first <= us[i].last)
    && (forall i | 0 < i < |us| :: us[i].first == us[i-1].last + 1)
  }

  lemma {:induction false} ContiguousIncreases(us: seq<Update>, i: nat, j: nat)
    requires Contiguous(us) && i <= j < |us|
    ensures us[i].last <= us[j].last
    decreases j
  {
    if i < j {
      ContiguousIncreases(us, i, j - 1);
    }
  }

  /** A contiguous stream is followed without a gap, to its last id, exactly when its first
      message does not start after the snapshot or names it. */
  lemma {:induction false} ContiguousIsFollowed(l: Local, us: seq<Update>)
    requires Contiguous(us) && us != []
    ensures Follow(l, us).1 == |us| <==> us[0].first <= l.lastId + 1 || (us[0].prev == l.lastId && us[0].prev != 0)
    ensures Follow(l, us).1 == |us| ==>
              Follow(l, us).0.lastId == if us[|us|-1].last > l.lastId then us[|us|-1].last else l.lastId
    decreases |us|
  {
    if Judge(us[0], l.lastId) != Gap && |us| > 1 {
      var l' := Receive(l, us[0]);
      assert us[1..][|us|-2] == us[|us|-1];
      ContiguousIsFollowed(l', us[1..]);
      ContiguousIncreases(us, 0, |us| - 1);
    }
  }

  // ---------- How far a stream is read ----------

  /** The message is behind a book at `id` or joins it: it starts no later than the next id, or it
      names `id` as its predecessor. */
  predicate Fits(u: Update, id: int)
  {
    u.last <= id || u.first <= id + 1 || (u.prev == id && u.prev != 0)
  }

  /** The highest id among `id` and those of the first `n` messages. */
  function Reached(id: int, us: seq<Update>, n: nat): int
    requires n <= |us|
  {
    if n == 0 then id
    else if us[n-1].last > Reached(id, us, n - 1) then us[n-1].last
    else Reached(id, us, n - 1)
  }

  /** Each of the first `n` messages fits what the ones before it have reached. */
  predicate AllFit(id: int, us: seq<Update>, n: nat)
    requires n <= |us|
  {
    n == 0 || (AllFit(id, us, n - 1) && Fits(us[n-1], Reached(id, us, n - 1)))
  }

  /** From a book at `id`, `read` messages that all fit are taken; the next does not fit, or there
      is none, or `most` is the limit. */
  predicate ReadFrom(id: int, us: seq<Update>, read: nat, most: nat)
  {
    && read <= |us| && read <= most && AllFit(id, us, read)
    && (read == |us| || read == most || !Fits(us[read], Reached(id, us, read)))
  }

  lemma {:induction false} FromNext(id: int, us: seq<Update>, next: int, rest: seq<Update>, n: nat)
    requires us != [] && rest == us[1..] && n <= |rest| && Fits(us[0], id) && next == Reached(id, us, 1)
    ensures Reached(id, us, n + 1) == Reached(next, rest, n)
    ensures AllFit(next, rest, n) ==> AllFit(id, us, n + 1)
  {
    if n == 0 {
      assert AllFit(id, us, 0) && Reached(id, us, 0) == id;
    } else {
      FromNext(id, us, next, rest, n - 1);
    }
  }

  lemma {:induction false} TakeOneMore(id: int, us: seq<Update>, next: int, rest: seq<Update>, read: nat)
    requires us != [] && rest == us[1..] && Fits(us[0], id) && next == Reached(id, us, 1)
    requires ReadFrom(next, rest, read, |rest|)
    ensures ReadFrom(id, us, read + 1, |us|) && Reached(id, us, read + 1) == Reached(next, rest, read)
  {
    FromNext(id, us, next, rest, read);
  }

  lemma {:induction false} OneMessage(l: Local, u: Update)
    ensures Judge(u, l.lastId) != Gap <==> Fits(u, l.lastId)
    ensures Fits(u, l.lastId) ==> Receive(l, u).lastId == if u.last > l.lastId then u.last else l.lastId
  {
  }

  lemma {:induction false} ReachedOne(id: int, us: seq<Update>)
    requires us != []
    ensures Reached(id, us, 0) == id && Reached(id, us, 1) == if us[0].last > id then us[0].last else id
  {
  }

  /** The rule of the clients: they follow a stream as far as it fits, and end at the highest id
      they have read. */
  lemma {:induction false} FollowReads(l: Local, us: seq<Update>)
    ensures ReadFrom(l.lastId, us, Follow(l, us).1, |us|)
    ensures Follow(l, us).0.lastId == Reached(l.lastId, us, Follow(l, us).1)
    decreases |us|
  {
    if us != [] {
      OneMessage(l, us[0]);
      ReachedOne(l.lastId, us);
      if Fits(us[0], l.lastId) {
        var l' := Receive(l, us[0]);
        FollowReads(l', us[1..]);
        TakeOneMore(l.lastId, us, l'.lastId, us[1..], Follow(l', us[1..]).1);
      }
    }
  }

  lemma {:induction false} ReachedAt(id: int, us: seq<Update>, n: nat)
    requires n < |us|
    ensures Reached(id, us, n + 1) == if us[n].last > Reached(id, us, n) then us[n].last else Reached(id, us, n)
    ensures AllFit(id, us, n + 1) <==> AllFit(id, us, n) && Fits(us[n], Reached(id, us, n))
  {
  }

  /** Reading on after the first `k` messages. */
  lemma {:induction false} ReadingOn(id: int, us: seq<Update>, k: nat, mid: int, ws: seq<Update>, n: nat)
    requires k + n <= |us| && n <= |ws| <= |us| - k && ws == us[k..k + |ws|]
    requires mid == Reached(id, us, k) && AllFit(id, us, k)
    ensures Reached(mid, ws, n) == Reached(id, us, k + n)
    ensures AllFit(mid, ws, n) ==> AllFit(id, us, k + n)
  {
    if n > 0 {
      ReadingOn(id, us, k, mid, ws, n - 1);
      ReachedAt(mid, ws, n - 1);
      ReachedAt(id, us, k + n - 1);
    }
  }

  lemma {:induction false} ReadOn(id: int, us: seq<Update>, k: nat, mid: int, ws: seq<Update>, more: nat, limit: nat)
    requires k <= |us| && mid == Reached(id, us, k) && AllFit(id, us, k)
    requires |ws| == (if limit < |us| - k then limit else |us| - k) && ws == us[k..k + |ws|]
    requires ReadFrom(mid, ws, more, |ws|)
    ensures ReadFrom(id, us, k + more, k + limit) && Reached(mid, ws, more) == Reached(id, us, k + more)
  {
    ReadingOn(id, us, k, mid, ws, more);
  }

  /** A stream without holes fits to its end once its first message does. */
  lemma {:induction false} ContiguousFits(id: int, us: seq<Update>, n: nat)
    requires Contiguous(us) && us != [] && Fits(us[0], id) && n <= |us|
    ensures AllFit(id, us, n)
    ensures n > 0 ==> Reached(id, us, n) == if us[n-1].last > id then us[n-1].last else id
  {
    if n > 0 {
      ContiguousFits(id, us, n - 1);
      ReachedAt(id, us, n - 1);
    }
  }

  /** How far a stream without holes is read. */
  lemma {:induction false} ContiguousIsRead(id: int, us: seq<Update>, read: nat, most: nat)
    requires Contiguous(us) && us != [] && Fits(us[0], id) && ReadFrom(id, us, read, most)
    ensures read == if most < |us| then most else |us|
    ensures read > 0 ==> Reached(id, us, read) == if us[read-1].last > id then us[read-1].last else id
  {
    ContiguousFits(id, us, read);
    if read < |us| {
      ContiguousFits(id, us, read + 1);
      ReachedAt(id, us, read);
    }
  }

  // ---------- The snapshot ----------

  /** Only levels with a positive size are loaded. */
  function LoadSide(ls: seq<Delta>): Levels
  {
    if ls == [] then map[]
    else
      var front := LoadSide(ls[..|ls|-1]);
      var d := ls[|ls|-1];
      if d.size > 0.0 then front[d.price := d.size] else front
  }

  /** A full snapshot of a side: each level once, with its size. */
  predicate SnapshotOf(ls: seq<Delta>, side: Levels)
  {
    && (forall p | p in side :: side[p] > 0.0 && Mentions(ls, p))
    && (forall i | 0 <= i < |ls| :: ls[i].size == Size(side, ls[i].price))
  }

  lemma {:induction false} LoadedSizes(ls: seq<Delta>, side: Levels, p: real)
    requires forall i | 0 <= i < |ls| :: ls[i].size == Size(side, ls[i].price)
    requires forall q | q in side :: side[q] > 0.0
    ensures p in LoadSide(ls) <==> p in side && Mentions(ls, p)
    ensures p in LoadSide(ls) ==> LoadSide(ls)[p] == side[p]
    decreases |ls|
  {
    if ls != [] {
      var front, d := ls[..|ls|-1], ls[|ls|-1];
      LoadedSizes(front, side, p);
      if Mentions(ls, p) && d.price != p {
        var i :| 0 <= i < |ls| && ls[i].price == p;
        assert front[i].price == p;
      }
      if Mentions(front, p) {
        var i :| 0 <= i < |front| && front[i].price == p;
        assert ls[i].price == p;
      }
      if d.price == p {
        assert ls[|ls|-1].price == p;
      }
    }
  }

  lemma {:induction false} SnapshotLoads(ls: seq<Delta>, side: Levels)
    requires SnapshotOf(ls, side)
    ensures LoadSide(ls) == side && Proper(side)
  {
    forall p: real ensures p in LoadSide(ls) <==> p in side ensures p in side ==> LoadSide(ls)[p] == side[p] {
      LoadedSizes(ls, side, p);
    }
  }

  // ---------- The clients ----------

  const BRIDGE_STALE_LIMIT := 200

  datatype BridgeResult = Bridged | Resnapshot | Closed

  /** The number of stale messages at the front. */
  function StaleRun(us: seq<Update>, lastId: int): (n: nat)
    ensures n <= |us|
  {
    if us == [] || us[0].last > lastId then 0 else 1 + StaleRun(us[1..], lastId)
  }

  /** They are all stale, and the next is not. */
  lemma {:induction false} StaleRunMeans(us: seq<Update>, lastId: int, i: nat)
    ensures i < StaleRun(us, lastId) ==> us[i].last <= lastId
    ensures StaleRun(us, lastId) < |us| ==> us[StaleRun(us, lastId)].last > lastId
  {
    if us != [] && us[0].last <= lastId {
      StaleRunMeans(us[1..], lastId, if i > 0 then i - 1 else 0);
    }
  }

  lemma {:induction false} StaleRunAt(us: seq<Update>, lastId: int, k: nat)
    requires k <= |us| && forall i | 0 <= i < k :: us[i].last <= lastId
    ensures k < |us| && us[k].last > lastId ==> StaleRun(us, lastId) == k
    ensures k == |us| ==> StaleRun(us, lastId) == k
    ensures StaleRun(us, lastId) >= k
    decreases k
  {
    if k > 0 {
      assert forall i | 0 <= i < k - 1 :: us[1..][i].last <= lastId;
      StaleRunAt(us[1..], lastId, k - 1);
    }
  }

  /** The first `limit` messages, or all. */
  function UpTo(us: seq<Update>, limit: nat): (r: seq<Update>)
    ensures |r| == if limit < |us| then limit else |us|
  {
    if limit < |us| then us[..limit] else us
  }

  class Client {
    var bids: Levels
    var asks: Levels
    var lastId: int

    function State(): Local
      reads this
    {
      Local(Book(bids, asks), lastId)
    }

    /** The snapshot is loaded over empty sides. */
    method LoadSnapshot(id: int, bidLevels: seq<Delta>, askLevels: seq<Delta>)
      modifies this
      ensures State() == Local(Book(LoadSide(bidLevels), LoadSide(askLevels)), id)
    {
      lastId := id;
      bids, asks := map[], map[];
      for i := 0 to |bidLevels|
        invariant lastId == id && asks == map[] && bids == LoadSide(bidLevels[..i])
      {
        assert bidLevels[..i + 1][..i] == bidLevels[..i];
        if bidLevels[i].size > 0.0 {
          bids := bids[bidLevels[i].price := bidLevels[i].size];
        }
      }
      assert bidLevels[..|bidLevels|] == bidLevels;
      for i := 0 to |askLevels|
        invariant lastId == id && bids == LoadSide(bidLevels) && asks == LoadSide(askLevels[..i])
      {
        assert askLevels[..i + 1][..i] == askLevels[..i];
        if askLevels[i].size > 0.0 {
          asks := asks[askLevels[i].price := askLevels[i].size];
        }
      }
      assert askLevels[..|askLevels|] == askLevels;
    }

    /** The loop of `apply_deltas`; the two clients call it on each side. */
    static method ApplyDeltasTo(side: Levels, ds: seq<Delta>) returns (after: Levels)
      ensures after == ApplyDeltas(side, ds)
    {
      after := side;
      for i := 0 to |ds|
        invariant ApplyDeltas(after, ds[i..]) == ApplyDeltas(side, ds)
      {
        assert ds[i..][1..] == ds[i + 1..];
        if ds[i].size == 0.0 {
          if ds[i].price in after {
            after := after - {ds[i].price};
          } else {
            assert after - {ds[i].price} == after;
          }
        } else {
          after := after[ds[i].price := ds[i].size];
        }
      }
      assert ds[|ds|..] == [];
    }

    /** `apply_update_json` and `apply_update`; a gap is the exception or the error. */
    method ApplyUpdate(u: Update) returns (v: Verdict)
      modifies this
      ensures v == Judge(u, old(lastId))
      ensures State() == Receive(old(State()), u)
    {
      if u.last <= lastId {
        return Stale;
      }
      var bridgedWindow := u.first <= lastId + 1 && lastId + 1 <= u.last;
      var bridgedPrev := u.prev == lastId && u.prev != 0;
      if !(bridgedWindow || bridgedPrev) {
        return Gap;
      }
      bids := ApplyDeltasTo(bids, u.bids);
      asks := ApplyDeltasTo(asks, u.asks);
      lastId := u.last;
      return Applied;
    }

    /** The bridge of md4.cpp.  It succeeds exactly when one of the first 201 messages is not
        stale and the first such message joins the snapshot; nothing but that message
        changes the book. */
    method Bridge(us: seq<Update>) returns (r: BridgeResult, consumed: nat)
      modifies this
      ensures consumed <= |us| && consumed <= BRIDGE_STALE_LIMIT + 1
      ensures var k := StaleRun(us, old(lastId));
              && (r == Bridged <==> k < |us| && k <= BRIDGE_STALE_LIMIT && Bridges(us[k], old(lastId)))
              && (r == Bridged ==> consumed == k + 1 && State() == Receive(old(State()), us[k]) && lastId == us[k].last)
              && (r == Closed <==> k == |us| <= BRIDGE_STALE_LIMIT)
      ensures r != Bridged ==> State() == old(State())
    {
      var bridgeStale := 0;
      consumed := 0;
      while consumed < |us|
        invariant consumed == bridgeStale <= |us| && bridgeStale <= BRIDGE_STALE_LIMIT
        invariant State() == old(State())
        invariant forall i | 0 <= i < consumed :: us[i].last <= lastId
      {
        StaleRunAt(us, lastId, consumed);
        var before := lastId;
        var v := ApplyUpdate(us[consumed]);
        consumed := consumed + 1;
        if v == Gap {
          return Resnapshot, consumed;
        }
        if lastId != before {
          return Bridged, consumed;
        }
        bridgeStale := bridgeStale + 1;
        if bridgeStale > BRIDGE_STALE_LIMIT {
          StaleRunAt(us, lastId, consumed);
          return Resnapshot, consumed;
        }
      }
      StaleRunAt(us, lastId, consumed);
      return Closed, consumed;
    }

    /** The steady state of both clients, up to `limit` messages. */
    method Steady(us: seq<Update>, limit: nat) returns (consumed: nat, gap: bool)
      modifies this
      ensures State() == Follow(old(State()), UpTo(us, limit)).0
      ensures consumed == Follow(old(State()), UpTo(us, limit)).1
      ensures gap <==> consumed < |UpTo(us, limit)|
    {
      ghost var n := |UpTo(us, limit)|;
      assert UpTo(us, limit) == us[..n];
      ghost var start := State();
      consumed := 0;
      assert us[..n][0..] == us[..n];
      while consumed < |us| && consumed < limit
        invariant consumed <= n
        invariant Follow(start, us[..n]).0 == Follow(State(), us[..n][consumed..]).0
        invariant Follow(start, us[..n]).1 == consumed + Follow(State(), us[..n][consumed..]).1
      {
        assert us[..n][consumed..][0] == us[consumed] && us[..n][consumed..][1..] == us[..n][consumed + 1..];
        var v := ApplyUpdate(us[consumed]);
        if v == Gap {
          return consumed, true;
        }
        consumed := consumed + 1;
      }
      assert us[..n][consumed..] == [];
      gap := false;
    }

    /** The bridge of main.rs stops after its first message, stale or not, although its
        comment says it waits for the first advancing update. */
    method BridgeOnce(us: seq<Update>) returns (r: BridgeResult)
      modifies this
      ensures us == [] ==> r == Closed && State() == old(State())
      ensures us != [] ==> State() == Receive(old(State()), us[0])
      ensures us != [] ==> (r == Resnapshot <==> Judge(us[0], old(lastId)) == Gap) && r != Closed
      ensures us != [] && us[0].last <= old(lastId) ==> r == Bridged && State() == old(State())
    {
      if us == [] {
        return Closed;
      }
      var v := ApplyUpdate(us[0]);
      r := if v == Gap then Resnapshot else Bridged;
    }
  }

  /** The two bridges part on a single stale message: the one of main.rs is over, with the book
      still at the snapshot, while that of md4.cpp waits for more. */
  method StaleFirstMessage() returns (once: BridgeResult, onceId: int, waiting: BridgeResult)
    ensures once == Bridged && onceId == 5 && waiting == Closed
  {
    var stale := Update(1, 3, 0, [], []);
    var a, b := new Client, new Client;
    a.LoadSnapshot(5, [], []);
    once := a.BridgeOnce([stale]);
    onceId := a.lastId;
    b.LoadSnapshot(5, [], []);
    var consumed;
    waiting, consumed := b.Bridge([stale]);
    assert StaleRun([stale], 5) == 1 + StaleRun([], 5);
  }

  // ---------- Whole sessions ----------

  lemma {:induction false} SnapshotSyncs(id: int, bidLevels: seq<Delta>, askLevels: seq<Delta>, x: Exchange)
    requires SnapshotOf(bidLevels, x(id).bids) && SnapshotOf(askLevels, x(id).asks)
    ensures Synced(Local(Book(LoadSide(bidLevels), LoadSide(askLevels)), id), x)
  {
    SnapshotLoads(bidLevels, x(id).bids);
    SnapshotLoads(askLevels, x(id).asks);
  }

  lemma {:induction false} StretchSyncs(l: Local, us: seq<Update>, from: nat, limit: nat, x: Exchange)
    requires ProperExchange(x) && Synced(l, x) && AllHonest(x, us) && from <= |us|
    ensures Synced(Follow(l, UpTo(us[from..], limit)).0, x)
  {
    FollowSyncs(l, UpTo(us[from..], limit), x);
  }

  lemma {:induction false} StaleStays(id: int, us: seq<Update>, k: nat)
    requires k <= StaleRun(us, id)
    ensures Reached(id, us, k) == id && AllFit(id, us, k)
  {
    if k > 0 {
      StaleRunMeans(us, id, k - 1);
      StaleStays(id, us, k - 1);
    }
  }

  /** After its bridge a pass goes on from message number `k`. */
  lemma {:induction false} StretchReads(l: Local, us: seq<Update>, id: int, k: nat, limit: nat, ws: seq<Update>)
    requires k <= |us| && l.lastId == Reached(id, us, k) && AllFit(id, us, k)
    requires ws == UpTo(us[k..], limit)
    ensures ReadFrom(id, us, k + Follow(l, ws).1, k + limit)
    ensures Follow(l, ws).0.lastId == Reached(id, us, k + Follow(l, ws).1)
  {
    assert ws == us[k..k + |ws|];
    FollowReads(l, ws);
    ReadOn(id, us, k, l.lastId, ws, Follow(l, ws).1, limit);
  }

  lemma {:induction false} ReachedGrows(id: int, us: seq<Update>, k: nat, n: nat)
    requires k <= n <= |us|
    ensures Reached(id, us, k) <= Reached(id, us, n)
    decreases n
  {
    if k < n {
      ReachedGrows(id, us, k, n - 1);
    }
  }

  /** How a pass over `us` from a snapshot at `id` ends.  It is bridged exactly when one of the first
      201 messages is not stale and the first such one fits; then it reads on to the first message
      that does not fit, or `limit` messages. */
  predicate PassEnds(id: int, us: seq<Update>, limit: nat, r: BridgeResult, read: nat, lastId: int)
  {
    var k := StaleRun(us, id);
    && (r == Bridged <==> k < |us| && k <= 200 && Fits(us[k], id))
    && (r == Closed <==> k == |us| <= 200)
    && (if r == Bridged
        then k < read && ReadFrom(id, us, read, k + 1 + limit) && lastId == Reached(id, us, read) && lastId > id
        else read <= |us| && read <= 201 && lastId == id)
  }

  /** The first message that is not stale joins exactly when it fits. */
  lemma {:induction false} JoinsWhenFits(id: int, us: seq<Update>, k: nat)
    requires k == StaleRun(us, id) < |us|
    ensures Bridges(us[k], id) <==> Fits(us[k], id)
    ensures Reached(id, us, k + 1) == us[k].last && (Fits(us[k], id) ==> AllFit(id, us, k + 1))
  {
    StaleRunMeans(us, id, k);
    StaleStays(id, us, k);
    ReachedAt(id, us, k);
  }

  lemma {:induction false} BridgedPassEnds(id: int, us: seq<Update>, k: nat, l: Local, limit: nat, ws: seq<Update>)
    requires BridgedBy(id, us, k, l.lastId)
    requires ws == UpTo(us[k + 1..], limit)
    ensures PassEnds(id, us, limit, Bridged, k + 1 + Follow(l, ws).1, Follow(l, ws).0.lastId)
  {
    JoinsWhenFits(id, us, k);
    StaleRunMeans(us, id, k);
    StretchReads(l, us, id, k + 1, limit, ws);
    ReachedGrows(id, us, k + 1, k + 1 + Follow(l, ws).1);
  }

  /** Over a stream without holes whose first message fits, a pass is bridged exactly when some
      message among the first 201 is not stale, and then it reads to the limit or to the end of the
      stream. */
  lemma {:induction false} PassOverContiguous(id: int, us: seq<Update>, limit: nat, r: BridgeResult, read: nat, lastId: int)
    requires PassEnds(id, us, limit, r, read, lastId) && Contiguous(us) && us != [] && Fits(us[0], id)
    ensures r == Bridged <==> exists i :: 0 <= i < |us| && i <= 200 && us[i].last > id
    ensures r == Bridged ==>
              var most := StaleRun(us, id) + 1 + limit;
              read == (if most < |us| then most else |us|) && lastId == us[read-1].last
  {
    var k := StaleRun(us, id);
    StaleStays(id, us, k);
    StaleRunMeans(us, id, k);
    if k < |us| {
      ContiguousFits(id, us, k);
      assert us[k].last > id;
    }
    if i :| 0 <= i < |us| && i <= 200 && us[i].last > id {
      StaleRunMeans(us, id, i);
    }
    if r == Bridged {
      ContiguousIsRead(id, us, read, k + 1 + limit);
    }
  }

  lemma {:induction false} UnbridgedPassEnds(id: int, us: seq<Update>, limit: nat, r: BridgeResult, read: nat)
    requires var k := StaleRun(us, id);
             && (r == Bridged <==> k < |us| && k <= BRIDGE_STALE_LIMIT && Bridges(us[k], id))
             && (r == Closed <==> k == |us| <= BRIDGE_STALE_LIMIT)
    requires r != Bridged && read <= |us| && read <= BRIDGE_STALE_LIMIT + 1
    ensures PassEnds(id, us, limit, r, read, id)
  {
    var k := StaleRun(us, id);
    if k < |us| {
      JoinsWhenFits(id, us, k);
    }
  }

  /** The bridge has taken the messages up to number `k`, the first that is not stale. */
  predicate BridgedBy(id: int, us: seq<Update>, k: nat, lastId: int)
  {
    k == StaleRun(us, id) < |us| && k <= 200 && Bridges(us[k], id) && lastId == us[k].last
  }

  /** Snapshot and bridge. */
  method Open(c: Client, id: int, bidLevels: seq<Delta>, askLevels: seq<Delta>, us: seq<Update>, ghost limit: nat,
      ghost x: Exchange)
    returns (r: BridgeResult, read: nat)
    requires ProperExchange(x) && AllHonest(x, us)
    requires SnapshotOf(bidLevels, x(id).bids) && SnapshotOf(askLevels, x(id).asks)
    modifies c
    ensures Synced(c.State(), x)
    ensures if r == Bridged then read > 0 && BridgedBy(id, us, read - 1, c.lastId) else PassEnds(id, us, limit, r, read, c.lastId)
  {
    SnapshotSyncs(id, bidLevels, askLevels, x);
    c.LoadSnapshot(id, bidLevels, askLevels);
    ghost var start := c.State();
    r, read := c.Bridge(us);
    if r == Bridged {
      AcceptedUpdateSyncs(start, us[read - 1], x);
    } else {
      UnbridgedPassEnds(id, us, limit, r, read);
    }
  }

  /** The steady state after the bridge. */
  lemma {:induction false} SteadyEnds(id: int, us: seq<Update>, read: nat, l: Local, limit: nat, x: Exchange)
    returns (end: Local, n: nat)
    requires ProperExchange(x) && Synced(l, x) && AllHonest(x, us) && read > 0 && BridgedBy(id, us, read - 1, l.lastId)
    ensures Follow(l, UpTo(us[read..], limit)) == (end, n)
    ensures Synced(end, x) && PassEnds(id, us, limit, Bridged, read + n, end.lastId)
  {
    end, n := Follow(l, UpTo(us[read..], limit)).0, Follow(l, UpTo(us[read..], limit)).1;
    StretchSyncs(l, us, read, limit, x);
    BridgedPassEnds(id, us, read - 1, l, limit, UpTo(us[read..], limit));
  }

  /** The steady state, from message number `start` on. */
  method GoOn(c: Client, id: int, us: seq<Update>, start: nat, limit: nat, ghost x: Exchange) returns (read: nat)
    requires ProperExchange(x) && Synced(c.State(), x) && AllHonest(x, us)
    requires start > 0 && BridgedBy(id, us, start - 1, c.lastId)
    modifies c
    ensures Synced(c.State(), x) && PassEnds(id, us, limit, Bridged, read, c.lastId)
  {
    ghost var end, n := SteadyEnds(id, us, start, c.State(), limit, x);
    var more, gap := c.Steady(us[start..], limit);
    assert c.State() == end && more == n;
    read := start + more;
  }

  /** One pass of the outer loop of md4.cpp: snapshot, bridge, then the steady state up to the
      limit.  From a full snapshot and honest updates the book is the exchange's at `lastId`
      however the pass ends; as the limit is arbitrary, it is so after every message. */
  method Session(c: Client, id: int, bidLevels: seq<Delta>, askLevels: seq<Delta>, us: seq<Update>, limit: nat,
      ghost x: Exchange)
    returns (r: BridgeResult, read: nat)
    requires ProperExchange(x) && AllHonest(x, us)
    requires SnapshotOf(bidLevels, x(id).bids) && SnapshotOf(askLevels, x(id).asks)
    modifies c
    ensures Synced(c.State(), x)
    ensures PassEnds(id, us, limit, r, read, c.lastId)
  {
    r, read := Open(c, id, bidLevels, askLevels, us, limit, x);
    if r != Bridged {
      return;
    }
    read := GoOn(c, id, us, read, limit, x);
  }

  /** The same for `run_once` of main.rs with its bridge of one message: it is bridged exactly when
      the first message fits, stale or not. */
  predicate OncePassEnds(id: int, us: seq<Update>, limit: nat, r: BridgeResult, read: nat, lastId: int)
  {
    && r == (if us == [] then Closed else if Fits(us[0], id) then Bridged else Resnapshot)
    && (if r == Bridged
        then 1 <= read && ReadFrom(id, us, read, 1 + limit) && lastId == Reached(id, us, read)
        else read <= |us| && read <= 1 && lastId == id)
  }

  lemma {:induction false} BridgedOncePassEnds(id: int, us: seq<Update>, start: Local, l: Local, limit: nat, ws: seq<Update>)
    requires us != [] && start.lastId == id && Fits(us[0], id) && l == Receive(start, us[0])
    requires ws == UpTo(us[1..], limit)
    ensures OncePassEnds(id, us, limit, Bridged, 1 + Follow(l, ws).1, Follow(l, ws).0.lastId)
  {
    OneMessage(start, us[0]);
    ReachedOne(id, us);
    ReachedAt(id, us, 0);
    assert AllFit(id, us, 0);
    StretchReads(l, us, id, 1, limit, ws);
  }

  lemma {:induction false} OncePassOverContiguous(id: int, us: seq<Update>, limit: nat, r: BridgeResult, read: nat, lastId: int)
    requires OncePassEnds(id, us, limit, r, read, lastId) && Contiguous(us) && us != [] && Fits(us[0], id)
    ensures read == if 1 + limit < |us| then 1 + limit else |us|
    ensures lastId == if us[read-1].last > id then us[read-1].last else id
  {
    ContiguousIsRead(id, us, read, 1 + limit);
  }

  method SessionOnce(c: Client, id: int, bidLevels: seq<Delta>, askLevels: seq<Delta>, us: seq<Update>, limit: nat,
      ghost x: Exchange)
    returns (r: BridgeResult, read: nat)
    requires ProperExchange(x) && AllHonest(x, us)
    requires SnapshotOf(bidLevels, x(id).bids) && SnapshotOf(askLevels, x(id).asks)
    modifies c
    ensures Synced(c.State(), x)
    ensures OncePassEnds(id, us, limit, r, read, c.lastId)
  {
    SnapshotSyncs(id, bidLevels, askLevels, x);
    c.LoadSnapshot(id, bidLevels, askLevels);
    ghost var start := c.State();
    r := c.BridgeOnce(us);
    if us == [] {
      return r, 0;
    }
    OneMessage(start, us[0]);
    AcceptedUpdateSyncs(start, us[0], x);
    if r != Bridged {
      return r, 1;
    }
    ghost var l := c.State();
    StretchSyncs(l, us, 1, limit, x);
    BridgedOncePassEnds(id, us, start, l, limit, UpTo(us[1..], limit));
    var more, gap := c.Steady(us[1..], limit);
    read := 1 + more;
  }
}
