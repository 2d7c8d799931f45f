/** Sessions as the durable ledgers see them: a sequence of documents, and the events that led from each to
    the next. A restored save rewinds the document and announces nothing, so the ledgers keep what was
    rewound (backend/app/modules/runtime/service.py, xp/service.py, inventory/service.py). */
module Chronicles {
  import opened Wrappers
  import opened Conditions
  import opened Effects
  import opened Accounts
  import PlayerLedgers

  /** One successful request: the events it returned, and whether it restored a save. */
  datatype Entry = Entry(events: seq<Event>, restored: bool)

  /** The documents a session went through; `opening` are the events of its start. */
  datatype Chronicle = Chronicle(opening: seq<Event>, states: seq<GameState>, entries: seq<Entry>)

  /** A fresh document holds what its first events announced. */
  ghost predicate Opens(events: seq<Event>, s: GameState) {
    && (forall item :: Net(events, item) == CountOf(s.inventory, item))
    && XpSum(events) == s.xpEarned
    && Unlocks(events) == s.achievements
  }

  /** A restore goes back to an earlier document; anything else accounts for what it changes. */
  ghost predicate EntryOk(c: Chronicle, n: nat)
    requires |c.states| == |c.entries| + 1 && n < |c.entries|
  {
    if c.entries[n].restored
    then c.entries[n].events == [] && exists k: nat :: k <= n && c.states[n + 1] == c.states[k]
    else Tracks(c.states[n], c.entries[n].events, c.states[n + 1])
  }

  ghost predicate Genuine(c: Chronicle) {
    |c.states| == |c.entries| + 1 && Opens(c.opening, c.states[0]) &&
    forall n: nat {:trigger EntryOk(c, n)} :: n < |c.entries| ==> EntryOk(c, n)
  }

  /** Everything the session has emitted in its first `n` entries. */
  function StreamAt(c: Chronicle, n: nat): seq<Event>
    requires n <= |c.entries|
  {
    if n == 0 then c.opening else StreamAt(c, n - 1) + c.entries[n - 1].events
  }

  /** XP and items that restores took out of the document again (or, going forward, put back). */
  function XpRewound(c: Chronicle, n: nat): int
    requires |c.states| == |c.entries| + 1 && n <= |c.entries|
  {
    if n == 0 then 0
    else XpRewound(c, n - 1) + if c.entries[n - 1].restored then c.states[n - 1].xpEarned - c.states[n].xpEarned else 0
  }

  function ItemsRewound(c: Chronicle, item: string, n: nat): int
    requires |c.states| == |c.entries| + 1 && n <= |c.entries|
  {
    if n == 0 then 0
    else ItemsRewound(c, item, n - 1) +
         if c.entries[n - 1].restored
         then CountOf(c.states[n - 1].inventory, item) - CountOf(c.states[n].inventory, item)
         else 0
  }

  /** Balance of one session: what its stream announced is what it holds plus what its restores rewound. */
  lemma {:induction false} StreamBalancesWithRestores(c: Chronicle, item: string, n: nat)
    requires Genuine(c) && n <= |c.entries|
    ensures XpSum(StreamAt(c, n)) == c.states[n].xpEarned + XpRewound(c, n)
    ensures Net(StreamAt(c, n), item) == CountOf(c.states[n].inventory, item) + ItemsRewound(c, item, n)
  {
    if n > 0 {
      StreamBalancesWithRestores(c, item, n - 1);
      SumsConcat(StreamAt(c, n - 1), c.entries[n - 1].events, item);
      assert EntryOk(c, n - 1);
    }
  }

  /** The session held the achievement at some moment of its first `n` entries. */
  ghost predicate EverHeld(c: Chronicle, code: string, n: nat)
    requires |c.states| == |c.entries| + 1 && n <= |c.entries|
  {
    exists k: nat :: k <= n && HeldAt(c, code, k)
  }

  predicate HeldAt(c: Chronicle, code: string, n: nat)
    requires n < |c.states|
  {
    code in c.states[n].achievements
  }

  /** What an entry announces is what it adds to the codes ever held. */
  lemma HoldingsAnnounced(c: Chronicle, code: string, n: nat)
    requires Genuine(c) && n < |c.entries|
    ensures EverHeld(c, code, n + 1) <==> EverHeld(c, code, n) || code in Unlocks(c.entries[n].events)
  {
    assert EntryOk(c, n);
    assert EverHeld(c, code, n + 1) <==> EverHeld(c, code, n) || HeldAt(c, code, n + 1);
    if c.entries[n].restored {
      var k: nat :| k <= n && c.states[n + 1] == c.states[k];
      assert HeldAt(c, code, n + 1) ==> HeldAt(c, code, k);
    } else {
      assert HeldAt(c, code, n + 1) <==> HeldAt(c, code, n) || code in Unlocks(c.entries[n].events);
    }
  }

  predicate AnnouncedBy(c: Chronicle, code: string, n: nat)
    requires n <= |c.entries|
  {
    code in Unlocks(StreamAt(c, n))
  }

  lemma AnnouncedNext(c: Chronicle, code: string, n: nat)
    requires n < |c.entries|
    ensures AnnouncedBy(c, code, n + 1) <==> AnnouncedBy(c, code, n) || code in Unlocks(c.entries[n].events)
  {
    SumsConcat(StreamAt(c, n), c.entries[n].events, "");
  }

  lemma AnnouncedAtFirst(c: Chronicle, code: string)
    requires Genuine(c)
    ensures AnnouncedBy(c, code, 0) <==> EverHeld(c, code, 0)
  {
    assert EverHeld(c, code, 0) <==> HeldAt(c, code, 0);
  }

  lemma AnnouncedStep(c: Chronicle, code: string, n: nat)
    requires Genuine(c) && n < |c.entries| && (AnnouncedBy(c, code, n) <==> EverHeld(c, code, n))
    ensures AnnouncedBy(c, code, n + 1) <==> EverHeld(c, code, n + 1)
  {
    AnnouncedNext(c, code, n);
    HoldingsAnnounced(c, code, n);
  }

  /** A code is announced exactly when the session held it at some moment, rewound or not. */
  lemma {:induction false} AnnouncedIffEverHeld(c: Chronicle, code: string, n: nat)
    requires Genuine(c) && n <= |c.entries|
    ensures AnnouncedBy(c, code, n) <==> EverHeld(c, code, n)
  {
    if n == 0 {
      AnnouncedAtFirst(c, code);
    } else {
      AnnouncedIffEverHeld(c, code, n - 1);
      AnnouncedStep(c, code, n - 1);
    }
  }

  // ---- Many sessions of one user ----

  ghost predicate AllGenuine(cs: seq<Chronicle>) {
    forall k :: 0 <= k < |cs| ==> Genuine(cs[k])
  }

  function Stream(c: Chronicle): seq<Event> { StreamAt(c, |c.entries|) }

  function Streams(cs: seq<Chronicle>): (streams: seq<seq<Event>>)
    ensures |streams| == |cs| && forall k :: 0 <= k < |cs| ==> streams[k] == Stream(cs[k])
  {
    if cs == [] then [] else Streams(cs[..|cs| - 1]) + [Stream(cs[|cs| - 1])]
  }

  ghost function EarnedSum(cs: seq<Chronicle>): int
    requires AllGenuine(cs)
  {
    if cs == [] then 0
    else
      var c := cs[|cs| - 1];
      EarnedSum(cs[..|cs| - 1]) + c.states[|c.entries|].xpEarned
  }

  ghost function RewoundSum(cs: seq<Chronicle>): int
    requires AllGenuine(cs)
  {
    if cs == [] then 0 else RewoundSum(cs[..|cs| - 1]) + XpRewound(cs[|cs| - 1], |cs[|cs| - 1].entries|)
  }

  ghost function HeldSum(cs: seq<Chronicle>, item: string): int
    requires AllGenuine(cs)
  {
    if cs == [] then 0
    else
      var c := cs[|cs| - 1];
      HeldSum(cs[..|cs| - 1], item) + CountOf(c.states[|c.entries|].inventory, item)
  }

  ghost function ItemsRewoundSum(cs: seq<Chronicle>, item: string): int
    requires AllGenuine(cs)
  {
    if cs == [] then 0
    else ItemsRewoundSum(cs[..|cs| - 1], item) + ItemsRewound(cs[|cs| - 1], item, |cs[|cs| - 1].entries|)
  }

  lemma {:induction false} AnnouncedTotals(cs: seq<Chronicle>, item: string)
    requires AllGenuine(cs)
    ensures PlayerLedgers.XpTotal(Streams(cs)) == EarnedSum(cs) + RewoundSum(cs)
    ensures PlayerLedgers.NetTotal(Streams(cs), item) == HeldSum(cs, item) + ItemsRewoundSum(cs, item)
  {
    if cs != [] {
      var front, c := cs[..|cs| - 1], cs[|cs| - 1];
      AnnouncedTotals(front, item);
      StreamBalancesWithRestores(c, item, |c.entries|);
      assert (Streams(front) + [Stream(c)])[..|front|] == Streams(front);
    }
  }

  ghost predicate SomeEverHeld(cs: seq<Chronicle>, code: string)
    requires AllGenuine(cs)
  {
    exists k :: 0 <= k < |cs| && EverHeld(cs[k], code, |cs[k].entries|)
  }

  lemma DurableXp(catalog: map<string, int>, cs: seq<Chronicle>, order: seq<nat>)
    requires AllGenuine(cs) && PlayerLedgers.Complete(Streams(cs), order)
    ensures var u := PlayerLedgers.ConsumeAll(catalog, PlayerLedgers.Delivered(Streams(cs), order));
            u.total == EarnedSum(cs) + RewoundSum(cs) + PlayerLedgers.RewardSum(catalog, u.grants)
  {
    var streams := Streams(cs);
    PlayerLedgers.XpConserved(catalog, PlayerLedgers.Delivered(streams, order));
    PlayerLedgers.DeliveredXp(streams, order);
    PlayerLedgers.FullXpShares(streams, order, |cs|);
    assert streams[..|cs|] == streams;
    AnnouncedTotals(cs, "");
  }

  lemma DeliveredCodes(cs: seq<Chronicle>, order: seq<nat>, code: string)
    requires AllGenuine(cs) && PlayerLedgers.Complete(Streams(cs), order)
    ensures code in Unlocks(PlayerLedgers.Delivered(Streams(cs), order)) <==> SomeEverHeld(cs, code)
  {
    PlayerLedgers.FullDeliveryMembers(Streams(cs), order, code);
    forall k | 0 <= k < |cs|
      ensures code in Unlocks(Streams(cs)[k]) <==> EverHeld(cs[k], code, |cs[k].entries|)
    {
      AnnouncedIffEverHeld(cs[k], code, |cs[k].entries|);
    }
  }

  lemma LedgerOfChronicles(catalog: map<string, int>, cs: seq<Chronicle>, order: seq<nat>)
    requires AllGenuine(cs) && PlayerLedgers.Complete(Streams(cs), order)
    ensures var u := PlayerLedgers.ConsumeAll(catalog, PlayerLedgers.Delivered(Streams(cs), order));
            u.total == EarnedSum(cs) + RewoundSum(cs) + PlayerLedgers.RewardSum(catalog, u.grants) &&
            Distinct(u.grants) &&
            forall code :: code in u.grants <==> code != "" && code in catalog && SomeEverHeld(cs, code)
  {
    DurableXp(catalog, cs, order);
    PlayerLedgers.XpConserved(catalog, PlayerLedgers.Delivered(Streams(cs), order));
    forall code ensures code in Unlocks(PlayerLedgers.Delivered(Streams(cs), order)) <==> SomeEverHeld(cs, code) {
      DeliveredCodes(cs, order, code);
    }
  }

  // ---- The mirror under restores ----

  /** The deepest debt of an item over the prefixes of a stream: what was taken back beyond what was given. */
  function Debt(events: seq<Event>, item: string): nat {
    if events == [] then 0
    else
      var before, net := Debt(events[..|events| - 1], item), Net(events, item);
      if before + net < 0 then -net else before
  }

  ghost predicate SolventAt(events: seq<Event>, item: string, k: nat)
    requires k <= |events|
  {
    Net(events[..k], item) >= 0
  }

  lemma {:induction false} NoDebtIffSolvent(events: seq<Event>, item: string)
    ensures Debt(events, item) == 0 <==> forall k: nat :: k <= |events| ==> SolventAt(events, item, k)
  {
    if events == [] {
      assert SolventAt(events, item, 0);
    } else {
      var n: nat := |events| - 1;
      var front := events[..n];
      NoDebtIffSolvent(front, item);
      assert events[..n + 1] == events;
      forall k: nat | k <= n ensures SolventAt(front, item, k) <==> SolventAt(events, item, k) {
        assert front[..k] == events[..k];
      }
      assert SolventAt(events, item, n + 1) <==> Net(events, item) >= 0;
    }
  }

  /** The mirror for any event stream: it holds what was announced plus the deepest debt that the clip at
      zero forgave. So it agrees with the announcements if and only if no prefix of the stream owes the
      item, and with restores in play it need not. */
  lemma {:induction false} MirrorForgivesDebt(events: seq<Event>, user: int, slug: string, item: string)
    requires item != ""
    ensures PlayerLedgers.Quantity(PlayerLedgers.MirrorAll(user, slug, events), PlayerLedgers.Key(user, slug, item)) ==
            Net(events, item) + Debt(events, item)
  {
    if events != [] {
      MirrorForgivesDebt(events[..|events| - 1], user, slug, item);
    }
  }

  /** What an interleaved delivery announces of an item is what its streams announced. */
  lemma {:induction false} DeliveredNet(streams: seq<seq<Event>>, order: seq<nat>, item: string)
    requires PlayerLedgers.ValidOrder(streams, order)
    ensures Net(PlayerLedgers.Delivered(streams, order), item) ==
            PlayerLedgers.NetSum(streams, order, item, |streams|)
    decreases |order|
  {
    if order == [] {
      PlayerLedgers.EmptyNetSum(streams, item, |streams|);
    } else {
      var events, front := PlayerLedgers.Delivered(streams, order), order[..|order| - 1];
      PlayerLedgers.FrontValid(streams, order);
      DeliveredNet(streams, front, item);
      PlayerLedgers.NetSumStep(streams, order, item, |streams|);
      assert events[..|events| - 1] == PlayerLedgers.Delivered(streams, front);
    }
  }

  lemma DurableItems(cs: seq<Chronicle>, order: seq<nat>, user: int, slug: string, item: string)
    requires AllGenuine(cs) && PlayerLedgers.Complete(Streams(cs), order) && item != ""
    ensures var events := PlayerLedgers.Delivered(Streams(cs), order);
            PlayerLedgers.Quantity(PlayerLedgers.MirrorAll(user, slug, events), PlayerLedgers.Key(user, slug, item)) ==
            HeldSum(cs, item) + ItemsRewoundSum(cs, item) + Debt(events, item)
  {
    var streams := Streams(cs);
    MirrorForgivesDebt(PlayerLedgers.Delivered(streams, order), user, slug, item);
    DeliveredNet(streams, order, item);
    PlayerLedgers.FullNetSum(streams, order, item, |cs|);
    assert streams[..|cs|] == streams;
    AnnouncedTotals(cs, item);
  }
}
