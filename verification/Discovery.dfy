/**
 Applying a discovered listing (src/sluicery/core/sync.py, db/repositories/item.py and target.py).
 The items of one playlist are keyed by their source id, which is unique there.
 */
module Discovery {
  import opened Common

  datatype Membership = Active | Delisted

  /** data stands for the columns a discovery copies. */
  datatype Item = Item(membership: Membership, data: string, lastSeen: nat, delistedAt: Option<nat>)

  datatype Entry = Entry(sourceId: string, data: string)

  datatype Stats = Stats(newItems: nat, delisted: nat, emptyResult: bool)

  /** Items by source id, and the pairs of item and profile assignment that have a target. */
  datatype Listing = Listing(items: map<string, Item>, targets: set<(string, nat)>)

  /** One entry per source id, the last one given; entries without an id are dropped. */
  function Discovered(entries: seq<Entry>): map<string, Entry> {
    if entries == [] then map[]
    else
      var last := entries[|entries| - 1];
      var before := Discovered(entries[..|entries| - 1]);
      if last.sourceId == "" then before else before[last.sourceId := last]
  }

  function New(l: Listing, found: map<string, Entry>): set<string> { found.Keys - l.items.Keys }

  function Vanished(l: Listing, found: map<string, Entry>): set<string> {
    set id | id in l.items && l.items[id].membership.Active? && id !in found
  }

  function Reappeared(l: Listing, found: map<string, Entry>): set<string> {
    set id | id in l.items && l.items[id].membership.Delisted? && id in found
  }

  // ---- the three updates ----

  function Upserted(items: map<string, Item>, entry: Entry, now: nat): Item {
    if entry.sourceId in items then items[entry.sourceId].(data := entry.data, lastSeen := now)
    else Item(Active, entry.data, now, None)
  }

  function Delist(item: Item, now: nat): Item { item.(membership := Delisted, delistedAt := Some(now)) }

  function Relist(item: Item, now: nat): Item { item.(membership := Active, delistedAt := None, lastSeen := now) }

  class Discoverer {
    var listing: Listing

    constructor (l: Listing)
      ensures listing == l
    {
      listing := l;
    }

    /** Applies a discovery: upsert, delist, relist, then the targets of the new items. */
    method ApplyDiscovery(entries: seq<Entry>, profiles: set<nat>, dryRun: bool, now: nat) returns (stats: Stats)
      modifies this
      ensures var found := Discovered(entries);
              && stats == (if found.Keys == {} then Stats(0, 0, true)
                           else Stats(|New(old(listing), found)|, |Vanished(old(listing), found)|, false))
              && listing == if found.Keys == {} || dryRun then old(listing)
                 else Applied(old(listing), found, profiles, now)
    {
      ghost var before := listing;
      var found := Discovered(entries);
      if found.Keys == {} {
        return Stats(0, 0, true);
      }
      var fresh0, vanished, reappeared := New(listing, found), Vanished(listing, found), Reappeared(listing, found);
      stats := Stats(|fresh0|, |vanished|, false);
      if dryRun {
        return;
      }
      UpsertAll(found, now);
      ghost var upserted := listing;
      DelistAll(vanished, now);
      ghost var delisted := listing;
      RelistAll(reappeared, now);
      MembersAre(before, upserted, delisted, listing, found, profiles, now);
      listing := listing.(targets := listing.targets + set id, p | id in fresh0 && p in profiles :: (id, p));
    }

    method DelistAll(ids: set<string>, now: nat)
      requires ids <= listing.items.Keys
      modifies this
      ensures Marked(old(listing), listing, ids, item => Delist(item, now))
    {
      ghost var before := listing;
      var left := ids;
      while left != {}
        invariant left <= ids && Marked(before, listing, ids - left, item => Delist(item, now))
        decreases left
      {
        var id :| id in left;
        left := left - {id};
        listing := listing.(items := listing.items[id := Delist(listing.items[id], now)]);
      }
      assert ids - left == ids;
    }

    method RelistAll(ids: set<string>, now: nat)
      requires ids <= listing.items.Keys
      modifies this
      ensures Marked(old(listing), listing, ids, item => Relist(item, now))
    {
      ghost var before := listing;
      var left := ids;
      while left != {}
        invariant left <= ids && Marked(before, listing, ids - left, item => Relist(item, now))
        decreases left
      {
        var id :| id in left;
        left := left - {id};
        listing := listing.(items := listing.items[id := Relist(listing.items[id], now)]);
      }
      assert ids - left == ids;
    }

    /** Creates or updates one item per discovered entry. */
    method UpsertAll(found: map<string, Entry>, now: nat)
      modifies this
      ensures listing.targets == old(listing).targets && listing.items.Keys == old(listing).items.Keys + found.Keys
      ensures forall id <- listing.items.Keys ::
                listing.items[id] == if id in found then Upserted(old(listing).items, found[id].(sourceId := id), now)
                  else old(listing).items[id]
    {
      ghost var before := listing;
      var left := found.Keys;
      while left != {}
        invariant left <= found.Keys && listing.targets == before.targets
        invariant listing.items.Keys == before.items.Keys + (found.Keys - left)
        invariant forall id <- listing.items.Keys ::
            listing.items[id] == if id in found.Keys - left then Upserted(before.items, found[id].(sourceId := id), now)
              else before.items[id]
        decreases left
      {
        var id :| id in left;
        left := left - {id};
        listing := listing.(items := listing.items[id := Upserted(listing.items, found[id].(sourceId := id), now)]);
      }
    }
  }

  /** Exactly these items were changed, each as the function says. */
  ghost predicate Marked(before: Listing, after: Listing, ids: set<string>, change: Item -> Item) {
    && after.targets == before.targets && after.items.Keys == before.items.Keys
    && forall id <- before.items.Keys :: after.items[id] == if id in ids then change(before.items[id])
         else before.items[id]
  }

  /** Upserting, delisting and relisting in this order gives the members of the discovery. */
  lemma MembersAre(
    before: Listing, upserted: Listing, delisted: Listing, relisted: Listing, found: map<string, Entry>,
    profiles: set<nat>, now: nat)
    requires upserted.items.Keys == before.items.Keys + found.Keys
    requires forall id <- upserted.items.Keys ::
               upserted.items[id] == if id in found then Upserted(before.items, found[id].(sourceId := id), now)
                 else before.items[id]
    requires Marked(upserted, delisted, Vanished(before, found), item => Delist(item, now))
    requires Marked(delisted, relisted, Reappeared(before, found), item => Relist(item, now))
    ensures relisted.items == Applied(before, found, profiles, now).items && relisted.targets == upserted.targets
  {
    var after := Applied(before, found, profiles, now);
    forall id <- relisted.items.Keys
      ensures relisted.items[id] == after.items[id]
    {
    }
  }

  /** The listing after a discovery, item by item. */
  function Applied(l: Listing, found: map<string, Entry>, profiles: set<nat>, now: nat): Listing {
    Listing(
      map id | id in l.items.Keys + found.Keys ::
        if id !in found then (if l.items[id].membership.Active? then Delist(l.items[id], now) else l.items[id])
        else if id !in l.items then Item(Active, found[id].data, now, None)
        else if l.items[id].membership.Active? then l.items[id].(data := found[id].data, lastSeen := now)
        else Relist(l.items[id].(data := found[id].data), now),
      l.targets + set id, p | id in New(l, found) && p in profiles :: (id, p))
  }

  // ---- results ----

  function ActiveIds(l: Listing): set<string> { set id | id in l.items && l.items[id].membership.Active? }

  /**
   Membership afterwards is the listing; nothing is removed; exactly the new items gain targets, one per
   assignment.
   */
  lemma DiscoveryIsExact(l: Listing, entries: seq<Entry>, profiles: set<nat>, now: nat)
    ensures var found := Discovered(entries);
            var after := Applied(l, found, profiles, now);
            && ActiveIds(after) == found.Keys
            && l.items.Keys <= after.items.Keys && l.targets <= after.targets
            && (forall id, p :: (id, p) in after.targets - l.targets ==> id !in l.items && id in found && p in profiles)
            && (forall id, p :: id in found && id !in l.items && p in profiles ==> (id, p) in after.targets)
  {
    var found := Discovered(entries);
    var after := Applied(l, found, profiles, now);
    forall id
      ensures id in ActiveIds(after) <==> id in found
    {
    }
  }

  /**
   Item by item: a discovered item has the last entry's data, was seen now and is not delisted; one
   that left the listing is delisted now, one that had left before stays as it was, and both keep their data.
   */
  lemma DiscoveryCarries(l: Listing, entries: seq<Entry>, profiles: set<nat>, now: nat, id: string)
    requires id in Applied(l, Discovered(entries), profiles, now).items
    requires forall known <- l.items.Keys :: l.items[known].membership.Active? ==> l.items[known].delistedAt == None
    ensures var found := Discovered(entries);
            var item := Applied(l, found, profiles, now).items[id];
            && (id in found ==> item == Item(Active, found[id].data, now, None))
            && (id !in found ==>
                  id in l.items && item.data == l.items[id].data && item.lastSeen == l.items[id].lastSeen)
            && (id !in found && l.items[id].membership.Active? ==> item.delistedAt == Some(now))
            && (id !in found && l.items[id].membership.Delisted? ==> item == l.items[id])
            && (item.membership.Active? ==> item.delistedAt == None)
  {
  }

  /** The reported numbers are the change: items gained and items that left the active ones. */
  lemma StatsAreTheChange(l: Listing, entries: seq<Entry>, profiles: set<nat>, now: nat)
    ensures var found := Discovered(entries);
            var after := Applied(l, found, profiles, now);
            && |New(l, found)| == |after.items| - |l.items|
            && Vanished(l, found) == ActiveIds(l) - ActiveIds(after)
  {
    var found := Discovered(entries);
    var after := Applied(l, found, profiles, now);
    DiscoveryIsExact(l, entries, profiles, now);
    Gained(l.items, after.items, New(l, found));
    VanishedAre(l, found, after);
  }

  lemma Gained(before: map<string, Item>, after: map<string, Item>, gained: set<string>)
    requires after.Keys == before.Keys + gained && before.Keys !! gained
    ensures |gained| == |after| - |before|
  {
    assert |after| == |after.Keys| && |before| == |before.Keys|;
  }

  lemma VanishedAre(l: Listing, found: map<string, Entry>, after: Listing)
    requires ActiveIds(after) == found.Keys
    ensures Vanished(l, found) == ActiveIds(l) - ActiveIds(after)
  {
  }

  /** The same entries again: nothing new, nothing delisted, and the same members, data and targets. */
  lemma DiscoveryTwice(l: Listing, entries: seq<Entry>, profiles: set<nat>, now: nat, later: nat)
    ensures var found := Discovered(entries);
            var once := Applied(l, found, profiles, now);
            var twice := Applied(once, found, profiles, later);
            && New(once, found) == {} && Vanished(once, found) == {} && Reappeared(once, found) == {}
            && twice.targets == once.targets && twice.items.Keys == once.items.Keys
            && forall id <- once.items.Keys ::
                 twice.items[id] == if id in found then once.items[id].(lastSeen := later) else once.items[id]
  {
    var found := Discovered(entries);
    var once := Applied(l, found, profiles, now);
    DiscoveryIsExact(l, entries, profiles, now);
    assert New(once, found) == {};
    forall id <- once.items.Keys
      ensures id in found ==> once.items[id].membership.Active? && once.items[id].data == found[id].data
    {
    }
    assert (set id, p | id in New(once, found) && p in profiles :: (id, p)) == {};
  }

  /** Of several entries with one id the last decides, whatever stands between them. */
  lemma {:induction false} LastEntryWins(entries: seq<Entry>, k: nat)
    requires k < |entries| && entries[k].sourceId != ""
    requires forall j :: k < j < |entries| ==> entries[j].sourceId != entries[k].sourceId
    ensures entries[k].sourceId in Discovered(entries) && Discovered(entries)[entries[k].sourceId] == entries[k]
  {
    if k < |entries| - 1 {
      LastEntryWins(entries[..|entries| - 1], k);
    }
  }

  /** Entry k is the last one with this id. */
  ghost predicate LastWith(entries: seq<Entry>, id: string, k: nat) {
    && k < |entries| && entries[k].sourceId == id
    && forall j :: k < j < |entries| ==> entries[j].sourceId != id
  }

  /** What is discovered: the ids that some entry has, other than the empty one, each with its last entry. */
  lemma {:induction false} DiscoveredExactly(entries: seq<Entry>, id: string)
    ensures id in Discovered(entries) <==> id != "" && exists k: nat :: LastWith(entries, id, k)
    ensures forall k: nat :: id in Discovered(entries) && LastWith(entries, id, k) ==>
                               Discovered(entries)[id] == entries[k]
  {
    if entries != [] {
      var n := |entries| - 1;
      var init, last := entries[..n], entries[n];
      DiscoveredExactly(init, id);
      if last.sourceId == id {
        assert LastWith(entries, id, n);
      } else {
        forall k: nat
          ensures LastWith(entries, id, k) <==> LastWith(init, id, k)
        {
        }
      }
    }
  }
}
