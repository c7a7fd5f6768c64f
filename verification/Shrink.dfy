/** The shrink from end to end: what the dying cache held is where the master
    sends for it. */
module Shrink {
  import opened Murmur
  import opened Ring
  import opened Wire
  import opened Recency
  import opened CacheView
  import opened MasterModel
  import opened Protocol
  import opened ViewAgreement
  import opened Migration

  /** Where the killed cache sends its keys. */
  function TargetsOf(list: seq<Addr>): string -> Addr
    requires list != []
  {
    (key: string) => Target(list, key)
  }

  /** The whole shrink, end to end: on any orderly run that has reached the point
      where the killed cache has read its death notice, if the survivors' caches
      have its capacity, then after it has sent everything, in any order, the
      server the master routes a key to holds that key with its value. */
  lemma ShrinkKeepsEveryKey(steps: seq<Step>, limit: nat, dying: Store, stores: map<Addr, Store>, capacity: int, order: seq<string>, k: string)
    requires Spacious(steps, limit)
    requires After(steps).phase.Shrinking? && |After(steps).table.fdNode| > 1
    requires Top(After(steps).table.fdNode) in After(steps).views
    requires After(steps).views[Top(After(steps).table.fdNode)].status == "K"
    requires stores.Keys == (set i | 0 <= i < |Pop(After(steps).table.fdNode)| :: CacheAddr(After(steps).table.recs, Pop(After(steps).table.fdNode)[i]))
    requires forall a :: a in stores ==> Fits(stores[a], capacity)
    requires Fits(dying, capacity) && CleanKeys(dying) && Enumerates(order, dying)
    requires Lookup(dying, k).Some?
    ensures var s := After(steps);
            var list := s.views[Top(s.table.fdNode)].list;
            && list != [] && (forall i :: 0 <= i < |order| ==> TargetsOf(list)(order[i]) in stores)
            && var done := SendAll(dying, stores, capacity, order, TargetsOf(list));
            && done.Some? && s.table.ring != map[]
            && ShardOf(s.table.ring, Hash(k)) < |s.table.fdNode| - 1
            && var server := Route(Do(s, EndShrinkStep).table, k);
            && CacheAddr(s.table.recs, server) in done.value
            && Lookup(done.value[CacheAddr(s.table.recs, server)], k) == Lookup(dying, k)
  {
    var s := After(steps);
    var list := s.views[Top(s.table.fdNode)].list;
    MigrationAgreesWithRouting(steps, limit, k);
    forall i | 0 <= i < |order|
      ensures TargetsOf(list)(order[i]) in stores
    {
      MigrationAgreesWithRouting(steps, limit, order[i]);
      var j := ShardOf(s.table.ring, Hash(order[i]));
      assert Route(s.table, order[i]) == Pop(s.table.fdNode)[j];
    }
    NothingIsLost(dying, stores, capacity, order, TargetsOf(list), k);
  }
}
