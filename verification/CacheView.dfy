/** A cache server's picture of the cluster, and how messages from the master
    change it. */
module CacheView {
  import opened Murmur
  import opened Options
  import opened Ring
  import opened Wire

  /** Virtual nodes a shard has on every ring of the program. */
  const V_NODES: nat := 100

  const NOBODY: Addr := Addr("None", "None")

  datatype View = View(
    ready: bool,           // the initial list has been read
    list: seq<Addr>,       // the primaries, in shard order
    status: string,        // "P", "R", or "K" once told to die
    prStatus: string,      // what the next heartbeat claims
    self: Addr,
    dying: Addr,           // the last cache announced as killed
    target: Addr)          // the other half of the pair

  /** The view a cache starts with. Only primaries wait for an initial list. */
  function Fresh(self: Addr, role: string): View {
    View(role == "R", [], role, role, self, Addr("", ""), NOBODY)
  }

  /** The list without the first entry equal to a. None stands for the undefined
      erase of a past-the-end iterator. */
  function Erase(list: seq<Addr>, a: Addr): Option<seq<Addr>> {
    if list == [] then None
    else if list[0] == a then Some(list[1..])
    else match Erase(list[1..], a)
      case Some(rest) => Some([list[0]] + rest)
      case None => None
  }

  function OnKill(v: View, a: Addr): Option<View> {
    match Erase(v.list, a)
    case None => None
    case Some(list) => Some(v.(list := list, dying := a, status := if a == v.self then "K" else v.status))
  }

  function OnNew(v: View, a: Addr): View {
    if a == v.self then v else v.(list := v.list + [a])
  }

  function OnDead(v: View, a: Addr): Option<View> {
    match Erase(v.list, a)
    case None => None
    case Some(list) => Some(v.(list := list))
  }

  function OnPrimary(v: View, pair: Addr): View {
    v.(status := "P", prStatus := "P", target := pair)
  }

  function OnReplica(v: View, pair: Addr): View {
    v.(status := "R", target := pair)
  }

  /** The address after the two-character head of a message. None stands for the
      exception or the undefined read of a message without one. */
  function Body(m: string): Option<Addr>
    requires |m| >= 2
  {
    match Slice(m[2..])
    case None => None
    case Some(parts) => Some(Addr(parts.0, parts.1))
  }

  /** One message from the master. None stands for a message on which the source
      throws or whose effect C++ leaves undefined; the promotion message is one,
      because its handler calls a function that returns nothing. */
  function ReadFromMaster(v: View, m: string): Option<View> {
    if m == "" then Some(v)
    else if |m| == 1 then None
    else if v.status == "K" then Some(v)
    else if m[0] == 'K' then (match Body(m) case None => None case Some(a) => OnKill(v, a))
    else if m[0] == 'N' then (match Body(m) case None => None case Some(a) => Some(OnNew(v, a)))
    else if m[0] == 'P' then
      if m[2..] == "None" then Some(OnPrimary(v, NOBODY))
      else (match Body(m) case None => None case Some(a) => Some(OnPrimary(v, a)))
    else if m[0] == 'R' then
      if m[2..] == "None" then Some(OnReplica(v, NOBODY))
      else (match Body(m) case None => None case Some(a) => Some(OnReplica(v, a)))
    else if m[0] == 'C' then None
    else if m[0] == 'D' then (match Body(m) case None => None case Some(a) => OnDead(v, a))
    else Some(v)
  }

  /** What the heartbeat thread does with a message: the first one a primary gets
      is its initial list. */
  function Receive(v: View, m: string): Option<View> {
    if v.ready then ReadFromMaster(v, m)
    else match ParseInit(m)
      case None => None
      case Some(addrs) => Some(v.(ready := true, list := v.list + addrs))
  }

  /** Everything still queued, received in order. */
  function Fold(v: View, queue: seq<string>): Option<View>
    decreases |queue|
  {
    if queue == [] then Some(v)
    else match Receive(v, queue[0])
      case None => None
      case Some(v') => Fold(v', queue[1..])
  }

  lemma RealRingIsNonEmpty(ring: Points, n: nat, v: nat)
    requires n > 0 && v > 0 && IsFresh(ring, HashedShards(v), n)
    ensures ring != map[]
  {
    hide Place, IsFresh;
    assert Place(0, 0) in ShardPoints(0, v);
    FreshIsNonEmpty(ring, HashedShards(v), n);
  }

  lemma ShardIsBelow(ring: Points, shards: Shards, n: nat, h: Word)
    requires ring != map[] && IsSound(ring, shards, n)
    ensures ShardOf(ring, h) < n
  {
    NonEmptyKeys(ring);
    SuccessorIsNearest(ring.Keys, h, 0);
  }

  /** Where a cache that has lost its place sends a key: the ring of the list it
      is left with, built from nothing. */
  function Target(list: seq<Addr>, key: string): Addr
    requires list != []
  {
    var shards, n := HashedShards(V_NODES), |list|;
    var ring := Build(shards, n);
    BuildIsFresh(shards, n);
    RealRingIsNonEmpty(ring, n, V_NODES);
    ShardIsBelow(ring, shards, n, Hash(key));
    list[ShardOf(ring, Hash(key))]
  }

  /** What comes before and after the first '#' of a message's body. */
  function AddrOfBody(m: string): Addr
    requires |m| >= 2
  {
    var n := FirstHash(m[2..]);
    if n == |m[2..]| then NOBODY else Addr(m[2..][..n], m[2..][n + 1..])
  }

  /** A cache that waits for entries of a dying one: a primary that has heard of a
      death by shrinking. */
  predicate Listens(v: View) {
    v.status == "P" && v.dying.ip != "" && v.dying.port != ""
  }

  /** Erasing finds its entry exactly when the address is listed. */
  lemma {:induction false} EraseFindsIff(list: seq<Addr>, a: Addr)
    ensures Erase(list, a).Some? <==> a in list
  {
    if list == [] {
    } else {
      EraseFindsIff(list[1..], a);
    }
  }

  /** The messages a cache cannot take: a single character; and, unless it has been
      told to die, a promotion, a text that should name an address and has no '#',
      and a `K` or `D` for an address that is not on its list. */
  lemma ReadFailsIff(v: View, m: string)
    ensures ReadFromMaster(v, m).None? <==>
            || |m| == 1
            || (|m| >= 2 && v.status != "K" &&
                (|| m[0] == 'C'
                 || (m[0] in "KND" && Clean(m[2..]))
                 || (m[0] in "PR" && Clean(m[2..]) && m[2..] != "None")
                 || (m[0] in "KD" && !Clean(m[2..]) && AddrOfBody(m) !in v.list)))
  {
    if |m| >= 2 {
      CleanHasNoHash(m[2..]);
      EraseFindsIff(v.list, AddrOfBody(m));
    }
  }

  /** A message with any other head is ignored. */
  lemma OtherHeadsAreIgnored(v: View, m: string)
    requires |m| >= 2 && m[0] !in "KNPRCD"
    ensures ReadFromMaster(v, m) == Some(v)
  {
  }

  // ---------- folding ----------

  lemma {:induction false} FoldSnoc(v: View, queue: seq<string>, m: string)
    ensures Fold(v, queue + [m]) == match Fold(v, queue) case None => None case Some(v') => Receive(v', m)
    decreases |queue|
  {
    if queue == [] {
      assert ([] + [m])[1..] == [];
    } else {
      assert (queue + [m])[1..] == queue[1..] + [m];
      match Receive(v, queue[0])
      case None =>
      case Some(v') => FoldSnoc(v', queue[1..], m);
    }
  }

  // ---------- the messages the master sends ----------

  function NewText(a: Addr): string { "N#" + AddrText(a) }
  function KillText(a: Addr): string { "K#" + AddrText(a) }
  function DeadText(a: Addr): string { "D#" + AddrText(a) }

  lemma BodyOfText(head: char, a: Addr)
    requires CleanAddr(a)
    ensures Body([head] + "#" + AddrText(a)) == Some(a)
  {
    assert ([head] + "#" + AddrText(a))[2..] == AddrText(a);
    SliceInvertsIff(a.ip, a.port);
  }

  lemma ReadNew(v: View, a: Addr)
    requires v.status != "K" && CleanAddr(a)
    ensures ReadFromMaster(v, NewText(a)) == Some(OnNew(v, a))
  {
    BodyOfText('N', a);
    assert NewText(a) == ['N'] + "#" + AddrText(a);
  }

  lemma ReadKill(v: View, a: Addr)
    requires v.status != "K" && CleanAddr(a)
    ensures ReadFromMaster(v, KillText(a)) == OnKill(v, a)
  {
    BodyOfText('K', a);
    assert KillText(a) == ['K'] + "#" + AddrText(a);
  }

  lemma ReadDead(v: View, a: Addr)
    requires v.status != "K" && CleanAddr(a)
    ensures ReadFromMaster(v, DeadText(a)) == OnDead(v, a)
  {
    BodyOfText('D', a);
    assert DeadText(a) == ['D'] + "#" + AddrText(a);
  }

  /** The half of a pair an answer names. */
  function PairOf(pair: Option<Addr>): Addr {
    match pair
    case None => NOBODY
    case Some(a) => a
  }

  function PairText(pair: Option<Addr>): string {
    match pair
    case None => "None"
    case Some(a) => AddrText(a)
  }

  lemma HashIsNotInNone(a: Addr)
    ensures AddrText(a) != "None"
  {
    assert AddrText(a)[|a.ip|] == HASH;
  }

  /** The answer to a heartbeat sets the role and the other half of the pair, and
      a primary claims to be one from then on; it never touches the list. A cache
      that has been told to die ignores it. */
  lemma ReadReply(v: View, status: char, pair: Option<Addr>)
    requires status == 'P' || status == 'R'
    requires pair.Some? ==> CleanAddr(pair.value)
    ensures ReadFromMaster(v, [status] + "#" + PairText(pair)) ==
            Some(if v.status == "K" then v
                 else if status == 'P' then v.(status := "P", prStatus := "P", target := PairOf(pair))
                 else v.(status := "R", target := PairOf(pair)))
  {
    var m := [status] + "#" + PairText(pair);
    assert m[2..] == PairText(pair);
    if pair.Some? {
      BodyOfText(status, pair.value);
      HashIsNotInNone(pair.value);
    }
  }

  // ---------- erasing ----------

  ghost predicate NoDuplicates<T>(s: seq<T>) {
    forall i, j :: 0 <= i < j < |s| ==> s[i] != s[j]
  }

  /** Erasing takes out the first equal entry and no other. */
  lemma {:induction false} EraseFirst(list: seq<Addr>, a: Addr, i: nat)
    requires i < |list| && list[i] == a && a !in list[..i]
    ensures Erase(list, a) == Some(list[..i] + list[i + 1..])
  {
    if i == 0 {
      assert list[..0] + list[1..] == list[1..];
    } else {
      assert list[0] in list[..i];
      assert list[1..][..i - 1] == list[..i][1..];
      EraseFirst(list[1..], a, i - 1);
      assert list[1..][i..] == list[i + 1..];
      assert [list[0]] + (list[1..][..i - 1] + list[1..][i..]) == list[..i] + list[i + 1..];
    }
  }

  /** Without duplicates that is the entry at any place of the address. */
  lemma EraseAt(list: seq<Addr>, i: nat)
    requires i < |list| && NoDuplicates(list)
    ensures Erase(list, list[i]) == Some(list[..i] + list[i + 1..])
  {
    EraseFirst(list, list[i], i);
  }
}
