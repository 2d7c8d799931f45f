/** The durable player ledgers that consume session events: the inventory mirror, the XP ledger and
    the achievement grants (backend/app/modules/inventory, xp and achievements). */
module PlayerLedgers {
  import opened Wrappers
  import opened Conditions
  import opened Effects
  import opened Definition
  import opened Engine
  import opened Progress
  import opened Accounts
  import Levels

  // ---- Delivery ----

  /** How many events of stream `k` a delivery order has handed over. */
  function Count(order: seq<nat>, k: nat): nat {
    if order == [] then 0
    else Count(order[..|order| - 1], k) + if order[|order| - 1] == k then 1 else 0
  }

  /** A delivery order names, at each step, the stream whose next event is handed over: streams
      interleave freely but each keeps its own order. */
  ghost predicate ValidOrder(streams: seq<seq<Event>>, order: seq<nat>) {
    (forall i :: 0 <= i < |order| ==> order[i] < |streams|) &&
    forall k :: 0 <= k < |streams| ==> Count(order, k) <= |streams[k]|
  }

  lemma FrontValid(streams: seq<seq<Event>>, order: seq<nat>)
    requires ValidOrder(streams, order) && order != []
    ensures ValidOrder(streams, order[..|order| - 1])
    ensures Count(order[..|order| - 1], order[|order| - 1]) < |streams[order[|order| - 1]]|
  {
    var front, last := order[..|order| - 1], order[|order| - 1];
    forall k | 0 <= k < |streams| ensures Count(front, k) <= |streams[k]| {
      assert Count(order, k) <= |streams[k]|;
    }
    assert Count(order, last) <= |streams[last]|;
  }

  ghost function Delivered(streams: seq<seq<Event>>, order: seq<nat>): seq<Event>
    requires ValidOrder(streams, order)
    decreases |order|
  {
    if order == [] then []
    else
      FrontValid(streams, order);
      var front, k := order[..|order| - 1], order[|order| - 1];
      Delivered(streams, front) + [streams[k][Count(front, k)]]
  }

  // ---- The inventory mirror ----

  datatype Key = Key(user: int, slug: string, item: string)

  function Quantity(items: map<Key, int>, key: Key): int {
    if key in items then items[key] else 0
  }

  function ApplyChange(items: map<Key, int>, key: Key, delta: int): map<Key, int> {
    var qty := Quantity(items, key) + delta;
    items[key := if qty > 0 then qty else 0]
  }

  class InventoryService {
    var items: map<Key, int>

    constructor ()
      ensures items == map[]
    {
      items := map[];
    }

    /** The record is created on demand; its quantity is clipped at zero. */
    method Change(key: Key, delta: int)
      modifies this
      ensures items == ApplyChange(old(items), key, delta)
    {
      if key !in items {
        items := items[key := 0];
      }
      var qty := items[key] + delta;
      items := items[key := if qty > 0 then qty else 0];
    }

    /** The subscriber ignores an empty item key. */
    method OnEvent(user: int, slug: string, e: Event)
      modifies this
      ensures items == Mirror(old(items), user, slug, e)
    {
      if e.InventoryChanged? && e.item != "" {
        Change(Key(user, slug, e.item), e.delta);
      }
    }
  }

  function Mirror(items: map<Key, int>, user: int, slug: string, e: Event): map<Key, int> {
    if e.InventoryChanged? && e.item != "" then ApplyChange(items, Key(user, slug, e.item), e.delta) else items
  }

  function MirrorAll(user: int, slug: string, events: seq<Event>): map<Key, int> {
    if events == [] then map[]
    else Mirror(MirrorAll(user, slug, events[..|events| - 1]), user, slug, events[|events| - 1])
  }

  /** What the first `n` streams have delivered of an item so far. */
  function NetSum(streams: seq<seq<Event>>, order: seq<nat>, item: string, n: nat): int
    requires n <= |streams| && forall k :: 0 <= k < |streams| ==> Count(order, k) <= |streams[k]|
  {
    if n == 0 then 0
    else NetSum(streams, order, item, n - 1) + Net(streams[n - 1][..Count(order, n - 1)], item)
  }

  /** Every stream only ever takes back what it gave. */
  ghost predicate Solvent(streams: seq<seq<Event>>) {
    forall k, item, n :: 0 <= k < |streams| && 0 <= n <= |streams[k]| ==> Net(streams[k][..n], item) >= 0
  }

  lemma {:induction false} NetSumNonNegative(streams: seq<seq<Event>>, order: seq<nat>, item: string, n: nat)
    requires ValidOrder(streams, order) && Solvent(streams) && n <= |streams|
    ensures NetSum(streams, order, item, n) >= 0
  {
    if n > 0 { NetSumNonNegative(streams, order, item, n - 1); }
  }

  /** Handing over one more event changes exactly its own stream's share. */
  lemma {:induction false} NetSumStep(streams: seq<seq<Event>>, order: seq<nat>, item: string, n: nat)
    requires ValidOrder(streams, order) && order != [] && n <= |streams|
    ensures var front, k := order[..|order| - 1], order[|order| - 1];
            ValidOrder(streams, front) && Count(front, k) < |streams[k]| &&
            NetSum(streams, order, item, n) ==
            NetSum(streams, front, item, n) + if k < n then Delta(streams[k][Count(front, k)], item) else 0
  {
    FrontValid(streams, order);
    var front, k := order[..|order| - 1], order[|order| - 1];
    if n > 0 {
      NetSumStep(streams, order, item, n - 1);
      if k == n - 1 {
        var prefix := streams[k][..Count(order, k)];
        assert prefix[..|prefix| - 1] == streams[k][..Count(front, k)];
      }
    }
  }

  /** Mirror agreement, at every moment of every interleaved delivery: for each non-empty item key the
      mirror holds exactly the sum of what the streams have announced, so the clip at zero never bites;
      an empty key is never mirrored. */
  lemma {:induction false} MirrorAgrees(
      streams: seq<seq<Event>>, order: seq<nat>, user: int, slug: string, item: string)
    requires ValidOrder(streams, order) && Solvent(streams)
    ensures Quantity(MirrorAll(user, slug, Delivered(streams, order)), Key(user, slug, item)) ==
            if item == "" then 0 else NetSum(streams, order, item, |streams|)
    decreases |order|
  {
    var events := Delivered(streams, order);
    if order == [] {
      EmptyNetSum(streams, item, |streams|);
    } else {
      var front, k := order[..|order| - 1], order[|order| - 1];
      FrontValid(streams, order);
      MirrorAgrees(streams, front, user, slug, item);
      NetSumStep(streams, order, item, |streams|);
      NetSumNonNegative(streams, order, item, |streams|);
      assert events[..|events| - 1] == Delivered(streams, front);
      assert events[|events| - 1] == streams[k][Count(front, k)];
    }
  }

  lemma {:induction false} EmptyNetSum(streams: seq<seq<Event>>, item: string, n: nat)
    requires n <= |streams|
    ensures NetSum(streams, [], item, n) == 0
  {
    if n > 0 {
      EmptyNetSum(streams, item, n - 1);
      assert streams[n - 1][..0] == [];
    }
  }

  // ---- Sessions feeding the ledgers ----

  /** One restore-free play of some published version of the mission. */
  datatype Playthrough = Playthrough(defn: GameDefinition, moves: seq<Move>)

  ghost predicate Genuine(p: Playthrough) { Accepted(p.defn) && NewState(p.defn).Done? }

  ghost predicate AllGenuine(plays: seq<Playthrough>) {
    forall k :: 0 <= k < |plays| ==> Genuine(plays[k])
  }

  ghost function Final(p: Playthrough): GameState
    requires Genuine(p)
  {
    Drive(p.defn, NewState(p.defn).state, p.moves)
  }

  lemma FinalHoldings(p: Playthrough, item: string)
    requires Genuine(p)
    ensures CountOf(Final(p).inventory, item) == Net(Stream(p.defn, p.moves), item)
    ensures Final(p).xpEarned == XpSum(Stream(p.defn, p.moves))
    ensures Final(p).achievements == Unlocks(Stream(p.defn, p.moves))
  {
    StreamAccountsForHoldings(p.defn, p.moves);
  }

  ghost function Streams(plays: seq<Playthrough>): seq<seq<Event>>
    requires AllGenuine(plays)
  {
    seq(|plays|, k requires 0 <= k < |plays| && Genuine(plays[k]) => Stream(plays[k].defn, plays[k].moves))
  }

  ghost predicate Complete(streams: seq<seq<Event>>, order: seq<nat>) {
    ValidOrder(streams, order) && forall k :: 0 <= k < |streams| ==> Count(order, k) == |streams[k]|
  }

  ghost function HeldSum(plays: seq<Playthrough>, item: string): int
    requires AllGenuine(plays)
  {
    if plays == [] then 0
    else HeldSum(plays[..|plays| - 1], item) + CountOf(Final(plays[|plays| - 1]).inventory, item)
  }

  lemma StreamsSolvent(plays: seq<Playthrough>)
    requires AllGenuine(plays)
    ensures Solvent(Streams(plays))
  {
    forall k, item, n | 0 <= k < |plays| && 0 <= n <= |Streams(plays)[k]|
      ensures Net(Streams(plays)[k][..n], item) >= 0
    {
      StreamAccountsForHoldings(plays[k].defn, plays[k].moves);
    }
  }

  function NetTotal(streams: seq<seq<Event>>, item: string): int {
    if streams == [] then 0 else NetTotal(streams[..|streams| - 1], item) + Net(streams[|streams| - 1], item)
  }

  lemma {:induction false} FullNetSum(streams: seq<seq<Event>>, order: seq<nat>, item: string, n: nat)
    requires Complete(streams, order) && n <= |streams|
    ensures NetSum(streams, order, item, n) == NetTotal(streams[..n], item)
  {
    if n > 0 {
      FullNetSum(streams, order, item, n - 1);
      assert streams[n - 1][..Count(order, n - 1)] == streams[n - 1];
      assert streams[..n][..n - 1] == streams[..n - 1];
    }
  }

  lemma {:induction false} HeldIsNet(plays: seq<Playthrough>, item: string)
    requires AllGenuine(plays)
    ensures NetTotal(Streams(plays), item) == HeldSum(plays, item)
  {
    if plays != [] {
      var n := |plays| - 1;
      HeldIsNet(plays[..n], item);
      FinalHoldings(plays[n], item);
      assert Streams(plays)[..n] == Streams(plays[..n]);
    }
  }

  /** The inventory mirror: once the events of any number of sessions of one user and mission have been
      delivered, in any interleaving that keeps each session's order, the durable quantity of every item
      with a non-empty key is exactly the sum of what the sessions hold. */
  lemma MirrorEqualsSessions(plays: seq<Playthrough>, order: seq<nat>, user: int, slug: string, item: string)
    requires AllGenuine(plays)
    requires Complete(Streams(plays), order) && item != ""
    ensures Quantity(MirrorAll(user, slug, Delivered(Streams(plays), order)), Key(user, slug, item)) ==
            HeldSum(plays, item)
  {
    StreamsSolvent(plays);
    MirrorAgrees(Streams(plays), order, user, slug, item);
    FullNetSum(Streams(plays), order, item, |plays|);
    HeldIsNet(plays, item);
    assert Streams(plays)[..|plays|] == Streams(plays);
  }

  // ---- XP and achievements ----

  /** A user's durable totals. `awards` is the append-only transaction ledger, `grants` the granted
      codes, `levelUps` the levels announced by level.up. */
  datatype Durable = Durable(total: int, level: int, awards: seq<int>, grants: seq<string>, levelUps: seq<int>)

  function Award(u: Durable, amount: int): Durable {
    var total := u.total + amount;
    var level := Levels.LevelForTotal(total);
    Durable(total, level, u.awards + [amount], u.grants, if level > u.level then u.levelUps + [level] else u.levelUps)
  }

  /** Grant once, then pay a positive reward as a further award. */
  function Unlock(catalog: map<string, int>, u: Durable, code: string): Durable {
    if code == "" || code !in catalog || code in u.grants then u
    else
      var granted := u.(grants := u.grants + [code]);
      if catalog[code] > 0 then Award(granted, catalog[code]) else granted
  }

  function Consume(catalog: map<string, int>, u: Durable, e: Event): Durable {
    match e
    case XpAwarded(amount, _) => Award(u, amount)
    case AchievementUnlocked(code) => Unlock(catalog, u, code)
    case _ => u
  }

  const NEWCOMER := Durable(0, 1, [], [], [])

  function ConsumeAll(catalog: map<string, int>, events: seq<Event>): Durable {
    if events == [] then NEWCOMER
    else Consume(catalog, ConsumeAll(catalog, events[..|events| - 1]), events[|events| - 1])
  }

  /** The XP and achievement subscribers of one user. */
  class PlayerLedger {
    const catalog: map<string, int>
    var total: int
    var level: int
    var awards: seq<int>
    var grants: seq<string>
    var levelUps: seq<int>

    function Value(): Durable
      reads this
    {
      Durable(total, level, awards, grants, levelUps)
    }

    constructor (catalog: map<string, int>)
      ensures Value() == NEWCOMER && this.catalog == catalog
    {
      this.catalog := catalog;
      total, level, awards, grants, levelUps := 0, 1, [], [], [];
    }

    method ApplyAward(amount: int)
      modifies this
      ensures Value() == Award(old(Value()), amount)
    {
      awards := awards + [amount];
      var oldLevel := level;
      total := total + amount;
      level := Levels.LevelForTotal(total);
      if level > oldLevel {
        levelUps := levelUps + [level];
      }
    }

    method UnlockCode(code: string)
      modifies this
      ensures Value() == Unlock(catalog, old(Value()), code)
    {
      if code == "" || code !in catalog || code in grants {
        return;
      }
      grants := grants + [code];
      if catalog[code] > 0 {
        ApplyAward(catalog[code]);
      }
    }

    method OnEvent(e: Event)
      modifies this
      ensures Value() == Consume(catalog, old(Value()), e)
    {
      match e {
        case XpAwarded(amount, _) => ApplyAward(amount);
        case AchievementUnlocked(code) => UnlockCode(code);
        case _ =>
      }
    }
  }

  function Sum(xs: seq<int>): int {
    if xs == [] then 0 else Sum(xs[..|xs| - 1]) + xs[|xs| - 1]
  }

  function Reward(catalog: map<string, int>, code: string): int {
    if code in catalog && catalog[code] > 0 then catalog[code] else 0
  }

  /** The rewards of the granted codes, one each. */
  function RewardSum(catalog: map<string, int>, codes: seq<string>): int {
    if codes == [] then 0
    else RewardSum(catalog, codes[..|codes| - 1]) + Reward(catalog, codes[|codes| - 1])
  }

  /** Conservation: the durable total is the XP the sessions announced plus the reward of each granted
      achievement once, however often it was announced; the grants are exactly the defined codes that
      were announced; and the transaction ledger adds up to the total. */
  lemma {:induction false} XpConserved(catalog: map<string, int>, events: seq<Event>)
    ensures Conserves(catalog, events, ConsumeAll(catalog, events))
  {
    if events != [] {
      XpConserved(catalog, events[..|events| - 1]);
      var front := events[..|events| - 1];
      ConsumeConserves(catalog, front, ConsumeAll(catalog, front), events[|events| - 1]);
      assert events == events[..|events| - 1] + [events[|events| - 1]];
    }
  }

  /** The durable totals `u` account for the delivered `events`. */
  ghost predicate Conserves(catalog: map<string, int>, events: seq<Event>, u: Durable) {
    u.total == XpSum(events) + RewardSum(catalog, u.grants) &&
    u.total == Sum(u.awards) &&
    Distinct(u.grants) &&
    (forall code :: code in u.grants <==> code != "" && code in catalog && code in Unlocks(events))
  }

  lemma SumAppend(xs: seq<int>, x: int)
    ensures Sum(xs + [x]) == Sum(xs) + x
  {
    assert (xs + [x])[..|xs|] == xs;
  }

  lemma AwardSums(u: Durable, amount: int)
    requires u.total == Sum(u.awards)
    ensures var v := Award(u, amount);
            v.total == u.total + amount && v.grants == u.grants && v.total == Sum(v.awards)
  {
    SumAppend(u.awards, amount);
  }

  lemma RewardAppend(catalog: map<string, int>, codes: seq<string>, code: string)
    ensures RewardSum(catalog, codes + [code]) == RewardSum(catalog, codes) + Reward(catalog, code)
  {
    assert (codes + [code])[..|codes|] == codes;
  }

  /** A new grant pays its reward once. */
  lemma GrantPays(catalog: map<string, int>, u: Durable, code: string)
    requires u.total == Sum(u.awards) && code != "" && code in catalog && code !in u.grants
    ensures var v := Unlock(catalog, u, code);
            v.grants == u.grants + [code] && v.total == u.total + Reward(catalog, code) && v.total == Sum(v.awards)
  {
    if catalog[code] > 0 { AwardSums(u.(grants := u.grants + [code]), catalog[code]); }
  }

  lemma UnlockConserves(catalog: map<string, int>, u: Durable, code: string)
    requires u.total == Sum(u.awards) && Distinct(u.grants)
    ensures var v := Unlock(catalog, u, code);
            v.total - u.total == RewardSum(catalog, v.grants) - RewardSum(catalog, u.grants) &&
            v.total == Sum(v.awards) && Distinct(v.grants) &&
            forall c :: c in v.grants <==> c in u.grants || (c == code && c != "" && c in catalog)
  {
    if code != "" && code in catalog && code !in u.grants {
      GrantPays(catalog, u, code);
      RewardAppend(catalog, u.grants, code);
    }
  }

  lemma AppendEvent(events: seq<Event>, e: Event)
    ensures XpSum(events + [e]) == XpSum(events) + XpOf(e)
    ensures Unlocks(events + [e]) == Unlocks(events) + if e.AchievementUnlocked? then [e.code] else []
  {
    assert (events + [e])[..|events|] == events;
  }

  lemma ConsumeConserves(catalog: map<string, int>, events: seq<Event>, u: Durable, e: Event)
    requires Conserves(catalog, events, u)
    ensures Conserves(catalog, events + [e], Consume(catalog, u, e))
  {
    AppendEvent(events, e);
    match e {
      case XpAwarded(amount, _) => AwardSums(u, amount);
      case AchievementUnlocked(code) => UnlockConserves(catalog, u, code);
      case _ =>
    }
  }

  predicate StrictlyIncreasing(xs: seq<int>) {
    forall i, j :: 0 <= i < j < |xs| ==> xs[i] < xs[j]
  }

  /** With nonnegative awards the stored level is always the level of the stored total, the announced
      levels strictly increase, and the last one announced is the level the user has. */
  lemma {:induction false} LevelUpsClimb(catalog: map<string, int>, events: seq<Event>)
    requires forall i :: 0 <= i < |events| && events[i].XpAwarded? ==> events[i].amount >= 0
    ensures var u := ConsumeAll(catalog, events);
            u.level == Levels.LevelForTotal(u.total) && StrictlyIncreasing(u.levelUps) &&
            (if u.levelUps == [] then u.level == 1 else u.level == u.levelUps[|u.levelUps| - 1] > 1)
  {
    if events == [] {
      Levels.LevelIsTheBand(0, 1);
    } else {
      var front := events[..|events| - 1];
      LevelUpsClimb(catalog, front);
      AwardClimbs(catalog, ConsumeAll(catalog, front), events[|events| - 1]);
    }
  }

  lemma AwardClimbs(catalog: map<string, int>, u: Durable, e: Event)
    requires e.XpAwarded? ==> e.amount >= 0
    requires u.level == Levels.LevelForTotal(u.total) && StrictlyIncreasing(u.levelUps)
    requires if u.levelUps == [] then u.level == 1 else u.level == u.levelUps[|u.levelUps| - 1] > 1
    ensures var v := Consume(catalog, u, e);
            v.level == Levels.LevelForTotal(v.total) && StrictlyIncreasing(v.levelUps) &&
            (if v.levelUps == [] then v.level == 1 else v.level == v.levelUps[|v.levelUps| - 1] > 1)
  {
    var v := Consume(catalog, u, e);
    if v.total != u.total || v.level != u.level {
      Levels.LevelMonotone(u.total, v.total);
    }
  }

  lemma {:induction false} DeliveredXp(streams: seq<seq<Event>>, order: seq<nat>)
    requires ValidOrder(streams, order)
    ensures XpSum(Delivered(streams, order)) == XpShares(streams, order, |streams|)
    decreases |order|
  {
    var events := Delivered(streams, order);
    if order == [] {
      EmptyXpShares(streams, |streams|);
    } else {
      var front := order[..|order| - 1];
      FrontValid(streams, order);
      DeliveredXp(streams, front);
      XpSharesStep(streams, order, |streams|);
      assert events[..|events| - 1] == Delivered(streams, front);
    }
  }

  /** XP announced so far by the first `n` streams. */
  function XpShares(streams: seq<seq<Event>>, order: seq<nat>, n: nat): int
    requires n <= |streams| && forall k :: 0 <= k < |streams| ==> Count(order, k) <= |streams[k]|
  {
    if n == 0 then 0 else XpShares(streams, order, n - 1) + XpSum(streams[n - 1][..Count(order, n - 1)])
  }

  lemma {:induction false} EmptyXpShares(streams: seq<seq<Event>>, n: nat)
    requires n <= |streams|
    ensures XpShares(streams, [], n) == 0
  {
    if n > 0 {
      EmptyXpShares(streams, n - 1);
      assert streams[n - 1][..0] == [];
    }
  }

  lemma {:induction false} XpSharesStep(streams: seq<seq<Event>>, order: seq<nat>, n: nat)
    requires ValidOrder(streams, order) && order != [] && n <= |streams|
    ensures var front, k := order[..|order| - 1], order[|order| - 1];
            ValidOrder(streams, front) && Count(front, k) < |streams[k]| &&
            XpShares(streams, order, n) ==
            XpShares(streams, front, n) + if k < n then XpOf(streams[k][Count(front, k)]) else 0
  {
    FrontValid(streams, order);
    var front, k := order[..|order| - 1], order[|order| - 1];
    if n > 0 {
      XpSharesStep(streams, order, n - 1);
      if k == n - 1 {
        var prefix := streams[k][..Count(order, k)];
        assert prefix[..|prefix| - 1] == streams[k][..Count(front, k)];
      }
    }
  }

  ghost function EarnedSum(plays: seq<Playthrough>): int
    requires AllGenuine(plays)
  {
    if plays == [] then 0 else EarnedSum(plays[..|plays| - 1]) + Final(plays[|plays| - 1]).xpEarned
  }

  function XpTotal(streams: seq<seq<Event>>): int {
    if streams == [] then 0 else XpTotal(streams[..|streams| - 1]) + XpSum(streams[|streams| - 1])
  }

  lemma {:induction false} FullXpShares(streams: seq<seq<Event>>, order: seq<nat>, n: nat)
    requires Complete(streams, order) && n <= |streams|
    ensures XpShares(streams, order, n) == XpTotal(streams[..n])
  {
    if n > 0 {
      FullXpShares(streams, order, n - 1);
      assert streams[n - 1][..Count(order, n - 1)] == streams[n - 1];
      assert streams[..n][..n - 1] == streams[..n - 1];
    }
  }

  lemma {:induction false} EarnedIsXp(plays: seq<Playthrough>)
    requires AllGenuine(plays)
    ensures XpTotal(Streams(plays)) == EarnedSum(plays)
  {
    if plays != [] {
      var n := |plays| - 1;
      EarnedIsXp(plays[..n]);
      FinalHoldings(plays[n], "");
      StreamsSnoc(plays);
      XpTotalSnoc(Streams(plays[..n]), Stream(plays[n].defn, plays[n].moves));
    }
  }

  lemma XpTotalSnoc(streams: seq<seq<Event>>, events: seq<Event>)
    ensures XpTotal(streams + [events]) == XpTotal(streams) + XpSum(events)
  {
    assert (streams + [events])[..|streams|] == streams;
  }

  lemma StreamsSnoc(plays: seq<Playthrough>)
    requires AllGenuine(plays) && plays != []
    ensures AllGenuine(plays[..|plays| - 1])
    ensures var p := plays[|plays| - 1];
            Genuine(p) && Streams(plays) == Streams(plays[..|plays| - 1]) + [Stream(p.defn, p.moves)]
  {
  }

  /** A code is announced by a stream exactly when the stream holds its unlock event. */
  lemma {:induction false} UnlocksAreEvents(events: seq<Event>, code: string)
    ensures code in Unlocks(events) <==> AchievementUnlocked(code) in events
  {
    if events != [] {
      UnlocksAreEvents(events[..|events| - 1], code);
      assert events == events[..|events| - 1] + [events[|events| - 1]];
    }
  }

  /** Delivery neither invents nor drops events. */
  lemma {:induction false} DeliveredMembers(streams: seq<seq<Event>>, order: seq<nat>, e: Event)
    requires ValidOrder(streams, order)
    ensures e in Delivered(streams, order) <==>
            exists k :: 0 <= k < |streams| && e in streams[k][..Count(order, k)]
    decreases |order|
  {
    if order != [] {
      var front, last := order[..|order| - 1], order[|order| - 1];
      FrontValid(streams, order);
      DeliveredMembers(streams, front, e);
      var fresh' := streams[last][Count(front, last)];
      assert streams[last][..Count(order, last)] == streams[last][..Count(front, last)] + [fresh'];
      if e == fresh' {
        assert e in streams[last][..Count(order, last)];
      }
      forall k | 0 <= k < |streams|
        ensures e in streams[k][..Count(order, k)] <==> e in streams[k][..Count(front, k)] || (k == last && e == fresh')
      {
      }
    }
  }

  lemma FullDeliveryMembers(streams: seq<seq<Event>>, order: seq<nat>, code: string)
    requires Complete(streams, order)
    ensures code in Unlocks(Delivered(streams, order)) <==>
            exists k :: 0 <= k < |streams| && code in Unlocks(streams[k])
  {
    UnlocksAreEvents(Delivered(streams, order), code);
    DeliveredMembers(streams, order, AchievementUnlocked(code));
    forall k | 0 <= k < |streams|
      ensures AchievementUnlocked(code) in streams[k][..Count(order, k)] <==> code in Unlocks(streams[k])
    {
      UnlocksAreEvents(streams[k], code);
      assert streams[k][..Count(order, k)] == streams[k];
    }
  }

  ghost predicate SomeUnlocked(plays: seq<Playthrough>, code: string)
    requires AllGenuine(plays)
  {
    exists k :: 0 <= k < |plays| && code in Final(plays[k]).achievements
  }

  lemma UnlockedInStreams(plays: seq<Playthrough>, code: string)
    requires AllGenuine(plays)
    ensures SomeUnlocked(plays, code) <==>
            exists k :: 0 <= k < |Streams(plays)| && code in Unlocks(Streams(plays)[k])
  {
    forall k | 0 <= k < |plays|
      ensures code in Final(plays[k]).achievements <==> code in Unlocks(Streams(plays)[k])
    {
      FinalHoldings(plays[k], "");
    }
  }

  /** End to end: after all events of a user's restore-free sessions are delivered in any order, the
      durable XP is the sum of what the sessions earned plus each granted achievement's reward once, and
      an achievement is granted exactly when it is defined and some session unlocked it. */
  lemma LedgerEqualsSessions(catalog: map<string, int>, plays: seq<Playthrough>, order: seq<nat>)
    requires AllGenuine(plays)
    requires Complete(Streams(plays), order)
    ensures var u := ConsumeAll(catalog, Delivered(Streams(plays), order));
            u.total == EarnedSum(plays) + RewardSum(catalog, u.grants) && Distinct(u.grants) &&
            forall code :: code in u.grants <==> code != "" && code in catalog && SomeUnlocked(plays, code)
  {
    var streams := Streams(plays);
    XpConserved(catalog, Delivered(streams, order));
    DeliveredXp(streams, order);
    FullXpShares(streams, order, |plays|);
    assert streams[..|plays|] == streams;
    EarnedIsXp(plays);
    forall code ensures code in Unlocks(Delivered(streams, order)) <==> SomeUnlocked(plays, code) {
      FullDeliveryMembers(streams, order, code);
      UnlockedInStreams(plays, code);
    }
  }

  /** An event moves at most the record of its own user, mission and item. */
  lemma MirrorTouchesOneRecord(items: map<Key, int>, user: int, slug: string, e: Event, key: Key)
    requires !(e.InventoryChanged? && key == Key(user, slug, e.item))
    ensures Quantity(Mirror(items, user, slug, e), key) == Quantity(items, key)
  {
  }

  /** Nothing a user plays in one mission reaches another user's or another mission's inventory. */
  lemma {:induction false} MirrorKeepsApart(events: seq<Event>, user: int, slug: string, key: Key)
    requires key.user != user || key.slug != slug
    ensures Quantity(MirrorAll(user, slug, events), key) == 0
  {
    if events != [] {
      MirrorKeepsApart(events[..|events| - 1], user, slug, key);
      MirrorTouchesOneRecord(MirrorAll(user, slug, events[..|events| - 1]), user, slug, events[|events| - 1], key);
    }
  }
}
