/**
 * The host router: the watcher that keeps a cache of running nodes and rebuilds the routing table
 * from it, and the lookup of a request's host header in that table.
 */
module Routing {
  import opened Prelude
  import Decimal
  import UnitFiles

  datatype NodeMeta = NodeMeta(nodeId: nat, port: nat, hostname: Option<string>)

  type Cache = map<nat, NodeMeta>

  type Table = map<string, nat>

  /**
   * One item of the unit directory: an I/O error, a file that is not a node unit, or the unit file of a
   * node with its text, if that can be read.
   */
  datatype DirEntry = Broken | Foreign | UnitFile(nodeId: nat, text: Option<string>)

  /** What a hostname or host header is up to the first `c`. */
  function Before(s: string, c: char): string {
    if s == "" || s[0] == c then "" else [s[0]] + Before(s[1..], c)
  }

  function Subdomain(hostname: string): string {
    Before(hostname, '.')
  }

  /// Scanning the unit directory

  function ParsedPort(e: DirEntry, id: nat): Option<nat> {
    if e.UnitFile? && e.nodeId == id && e.text.Some? then UnitFiles.PortOf(e.text.value) else None
  }

  /** The port in the last parsable unit file of node `id`. */
  function ScannedPort(entries: seq<DirEntry>, id: nat): Option<nat> {
    if entries == [] then None
    else
      var n := |entries| - 1;
      if ParsedPort(entries[n], id).Some? then ParsedPort(entries[n], id) else ScannedPort(entries[..n], id)
  }

  lemma ScanOneMore(entries: seq<DirEntry>, e: DirEntry, replies: nat -> Option<string>, id: nat)
    ensures ScannedPort(entries + [e], id) ==
            if ParsedPort(e, id).Some? then ParsedPort(e, id) else ScannedPort(entries, id)
    ensures FetchedHostname(entries + [e], replies, id) ==
            var earlier := FetchedHostname(entries, replies, id);
            if earlier.None? && ParsedPort(e, id).Some? then replies(|entries|) else earlier
  {
    assert (entries + [e])[..|entries|] == entries;
  }

  /** The first hostname the index gave for node `id` while its parsable unit files were visited. */
  function FetchedHostname(entries: seq<DirEntry>, replies: nat -> Option<string>, id: nat): Option<string> {
    if entries == [] then None
    else
      var n := |entries| - 1;
      var earlier := FetchedHostname(entries[..n], replies, id);
      if earlier.None? && ParsedPort(entries[n], id).Some? then replies(n) else earlier
  }

  /** With one file per node the scan finds that file's port. */
  lemma {:induction false} ScanFindsFile(entries: seq<DirEntry>, k: nat)
    requires k < |entries| && entries[k].UnitFile?
    requires forall i | 0 <= i < |entries| && entries[i].UnitFile? && entries[i].nodeId == entries[k].nodeId :: i == k
    ensures ScannedPort(entries, entries[k].nodeId) == ParsedPort(entries[k], entries[k].nodeId)
  {
    var n := |entries| - 1;
    if k == n {
      NoFileNoPort(entries[..n], entries[k].nodeId);
    } else {
      ScanFindsFile(entries[..n], k);
    }
  }

  lemma {:induction false} NoFileNoPort(entries: seq<DirEntry>, id: nat)
    requires forall i | 0 <= i < |entries| && entries[i].UnitFile? :: entries[i].nodeId != id
    ensures ScannedPort(entries, id) == None
  {
    if entries != [] {
      NoFileNoPort(entries[..|entries| - 1], id);
    }
  }

  /** Of several parsable files of a node the last one listed decides the port. */
  lemma {:induction false} LastFileDecides(entries: seq<DirEntry>, k: nat, id: nat)
    requires k < |entries| && ParsedPort(entries[k], id).Some?
    requires forall i | k < i < |entries| :: ParsedPort(entries[i], id) == None
    ensures ScannedPort(entries, id) == ParsedPort(entries[k], id)
  {
    if k < |entries| - 1 {
      LastFileDecides(entries[..|entries| - 1], k, id);
    }
  }

  /** The hostname comes from the first of a node's parsable files at which the index gave one. */
  lemma {:induction false} FirstReplyDecides(
    entries: seq<DirEntry>, replies: nat -> Option<string>, k: nat, id: nat)
    requires k < |entries| && ParsedPort(entries[k], id).Some? && replies(k).Some?
    requires forall i | 0 <= i < k && ParsedPort(entries[i], id).Some? :: replies(i) == None
    ensures FetchedHostname(entries, replies, id) == replies(k)
  {
    var n := |entries| - 1;
    if k < n {
      FirstReplyDecides(entries[..n], replies, k, id);
    } else {
      NoReplyNoHostname(entries[..n], replies, id);
    }
  }

  lemma {:induction false} NoReplyNoHostname(entries: seq<DirEntry>, replies: nat -> Option<string>, id: nat)
    requires forall i | 0 <= i < |entries| && ParsedPort(entries[i], id).Some? :: replies(i) == None
    ensures FetchedHostname(entries, replies, id) == None
  {
    if entries != [] {
      NoReplyNoHostname(entries[..|entries| - 1], replies, id);
    }
  }

  /** Only the unit file of the node itself counts, if its text can be read and has a port. */
  lemma ParsedPortExactly(e: DirEntry, id: nat, port: nat)
    ensures ParsedPort(e, id) == Some(port) <==>
            exists text :: e == UnitFile(id, Some(text)) && UnitFiles.PortOf(text) == Some(port)
  {
    if ParsedPort(e, id) == Some(port) {
      assert e == UnitFile(id, Some(e.text.value));
    }
  }

  /// The routing table

  function KeysOf(meta: NodeMeta): set<string> {
    {Decimal.Show(meta.nodeId)} +
    (match meta.hostname case Some(host) => {host, Subdomain(host)} case None => {})
  }

  /** The table after one node's keys have been inserted. */
  function WithNode(table: Table, meta: NodeMeta): Table {
    table + map k | k in KeysOf(meta) :: meta.port
  }

  /** The table built by visiting the cache in the order `order`. */
  function TableOf(cache: Cache, order: seq<nat>): Table
    requires forall id | id in order :: id in cache
  {
    if order == [] then map[]
    else WithNode(TableOf(cache, order[..|order| - 1]), cache[order[|order| - 1]])
  }

  /** `order` visits every element of `ids` once. */
  ghost predicate IsOrder(order: seq<nat>, ids: set<nat>) {
    && (forall id :: id in order <==> id in ids)
    && (forall i, j | 0 <= i < j < |order| :: order[i] != order[j])
  }

  lemma VisitOneMore(cache: Cache, order: seq<nat>, rest: set<nat>, id: nat)
    requires rest <= cache.Keys && id in rest && IsOrder(order, cache.Keys - rest)
    ensures IsOrder(order + [id], cache.Keys - (rest - {id}))
    ensures TableOf(cache, order + [id]) == WithNode(TableOf(cache, order), cache[id])
  {
    assert (order + [id])[..|order|] == order;
    forall i | 0 <= i < |order| ensures order[i] != id {
      assert order[i] in order;
    }
  }

  method InsertNode(table: Table, meta: NodeMeta) returns (r: Table)
    ensures r == WithNode(table, meta)
  {
    r := table[Decimal.Show(meta.nodeId) := meta.port];
    if meta.hostname.Some? {
      var host := meta.hostname.value;
      r := r[host := meta.port];
      if Subdomain(host) != host {
        r := r[Subdomain(host) := meta.port];
      }
    }
    assert r == WithNode(table, meta);
  }

  /** The entry of node `id` after a unit file with `port` has been seen. */
  function Remembered(cache: Cache, id: nat, port: nat, reply: Option<string>): NodeMeta {
    NodeMeta(id, port, if id in cache && cache[id].hostname.Some? then cache[id].hostname else reply)
  }

  /** What the scan of `entries` has made of the cache `before`, for one node. */
  ghost predicate RefreshedAt(entries: seq<DirEntry>, replies: nat -> Option<string>, before: Cache, active: set<nat>,
                              cache: Cache, id: nat)
  {
    && (id in active <==> ScannedPort(entries, id).Some?)
    && if id in active then
         && id in cache
         && cache[id].port == ScannedPort(entries, id).value
         && cache[id].hostname == if id in before && before[id].hostname.Some? then before[id].hostname
                                  else FetchedHostname(entries, replies, id)
       else
         && FetchedHostname(entries, replies, id) == None
         && (id in cache <==> id in before)
         && (id in before ==> cache[id] == before[id])
  }

  ghost predicate Refreshed(
    entries: seq<DirEntry>, replies: nat -> Option<string>, before: Cache, active: set<nat>, cache: Cache) {
    forall id :: RefreshedAt(entries, replies, before, active, cache, id)
  }

  lemma RefreshedOneMore(entries: seq<DirEntry>, e: DirEntry, replies: nat -> Option<string>, before: Cache,
                         active: set<nat>, cache: Cache)
    requires Refreshed(entries, replies, before, active, cache)
    ensures var port := if e.UnitFile? then ParsedPort(e, e.nodeId) else None;
            if port.Some?
            then Refreshed(entries + [e], replies, before, active + {e.nodeId},
                           cache[e.nodeId := Remembered(cache, e.nodeId, port.value, replies(|entries|))])
            else Refreshed(entries + [e], replies, before, active, cache)
  {
    var port := if e.UnitFile? then ParsedPort(e, e.nodeId) else None;
    var active' := if port.Some? then active + {e.nodeId} else active;
    var cache' :=
      if port.Some? then cache[e.nodeId := Remembered(cache, e.nodeId, port.value, replies(|entries|))] else cache;
    forall id ensures RefreshedAt(entries + [e], replies, before, active', cache', id) {
      assert RefreshedAt(entries, replies, before, active, cache, id);
      ScanOneMore(entries, e, replies, id);
    }
  }

  /**
   * After a pass the cache has node `id` iff it has a parsable unit file, at that file's port, under the
   * hostname known before or else the one fetched during the pass.
   */
  ghost predicate CachedAsScanned(
    entries: seq<DirEntry>, replies: nat -> Option<string>, before: Cache, cache: Cache, id: nat) {
    && (id in cache <==> ScannedPort(entries, id).Some?)
    && (id in cache ==>
          && cache[id].port == ScannedPort(entries, id).value
          && cache[id].hostname == if id in before && before[id].hostname.Some? then before[id].hostname
                                   else FetchedHostname(entries, replies, id))
  }

  lemma PrunedEntry(entries: seq<DirEntry>, replies: nat -> Option<string>, before: Cache, active: set<nat>,
                    scanned: Cache, cache: Cache, id: nat)
    requires Refreshed(entries, replies, before, active, scanned)
    requires cache == map i | i in scanned && i in active :: scanned[i]
    ensures CachedAsScanned(entries, replies, before, cache, id)
  {
    assert RefreshedAt(entries, replies, before, active, scanned, id);
  }

  class Watcher {
    var cache: Cache
    var table: Table

    ghost predicate Valid()
      reads this
    {
      forall id | id in cache :: cache[id].nodeId == id
    }

    constructor ()
      ensures Valid() && cache == map[] && table == map[]
    {
      cache, table := map[], map[];
    }

    /**
     * One pass over the unit directory. `entries` is its listing, `None` if listing fails; `replies[i]` is the
     * index's answer if the hostname of the `i`-th item's node is asked for.
     */
    method SyncState(dirExists: bool, listing: Option<seq<DirEntry>>, replies: nat -> Option<string>)
      returns (ok: bool, ghost order: seq<nat>)
      requires Valid()
      modifies this
      ensures Valid()
      ensures !dirExists ==> ok && cache == old(cache) && table == old(table)
      ensures dirExists ==> (ok <==> listing.Some? && Broken !in listing.value)
      ensures !ok ==> table == old(table)
      ensures dirExists && ok ==>
                && (forall id :: CachedAsScanned(listing.value, replies, old(cache), cache, id))
                && IsOrder(order, cache.Keys)
                && table == TableOf(cache, order)
    {
      order := [];
      if !dirExists {
        return true, order;
      }
      if listing.None? {
        return false, order;
      }
      var active: set<nat>;
      ok, active := ScanUnits(listing.value, replies);
      if !ok {
        return false, order;
      }
      ghost var scanned := cache;
      cache := map id | id in cache && id in active :: cache[id];
      forall id ensures CachedAsScanned(listing.value, replies, old(cache), cache, id) {
        PrunedEntry(listing.value, replies, old(cache), active, scanned, cache, id);
      }
      order := RebuildTable();
    }

    /** Visits the unit directory, updating the cache, and collects the nodes with a parsable unit file. */
    method ScanUnits(entries: seq<DirEntry>, replies: nat -> Option<string>) returns (ok: bool, active: set<nat>)
      requires Valid()
      modifies this`cache
      ensures Valid()
      ensures ok <==> Broken !in entries
      ensures ok ==> Refreshed(entries, replies, old(cache), active, cache)
    {
      active := {};
      ghost var before := cache;
      for i := 0 to |entries|
        invariant Valid()
        invariant Broken !in entries[..i]
        invariant Refreshed(entries[..i], replies, before, active, cache)
      {
        assert entries[..i + 1] == entries[..i] + [entries[i]];
        var found := entries[i].UnitFile? && entries[i].text.Some? && UnitFiles.PortOf(entries[i].text.value).Some?;
        RefreshedOneMore(entries[..i], entries[i], replies, before, active, cache);
        if entries[i].Broken? {
          return false, active;
        }
        if found {
          var id, port := entries[i].nodeId, UnitFiles.PortOf(entries[i].text.value).value;
          active := active + {id};
          Remember(id, port, replies(i));
        }
      }
      assert entries[..|entries|] == entries;
      ok := true;
    }

    /** Brings the cached port of `id` up to date and fills in its hostname if it is missing. */
    method Remember(id: nat, port: nat, reply: Option<string>)
      requires Valid()
      modifies this`cache
      ensures Valid()
      ensures cache == old(cache)[id := Remembered(old(cache), id, port, reply)]
    {
      var known := id in cache;
      if !known || cache[id].port != port {
        var hostname := if known then cache[id].hostname else None;
        cache := cache[id := NodeMeta(id, port, hostname)];
      }
      if cache[id].hostname.None? && reply.Some? {
        cache := cache[id := cache[id].(hostname := reply)];
      }
    }

    /** Rebuilds the table from the cache, visiting the nodes in whatever order the hash map yields. */
    method RebuildTable() returns (ghost order: seq<nat>)
      requires Valid()
      modifies this`table
      ensures IsOrder(order, cache.Keys) && table == TableOf(cache, order)
    {
      var rebuilt: Table := map[];
      order := [];
      var rest := cache.Keys;
      while rest != {}
        invariant rest <= cache.Keys
        invariant IsOrder(order, cache.Keys - rest)
        invariant rebuilt == TableOf(cache, order)
      {
        var id :| id in rest;
        var meta := cache[id];
        rebuilt := InsertNode(rebuilt, meta);
        VisitOneMore(cache, order, rest, id);
        order := order + [id];
        rest := rest - {id};
      }
      table := rebuilt;
    }
  }

  /// The keys of a node: its id, its hostname, and the hostname's first label

  ghost predicate IsFirstLabel(name: string, host: string) {
    '.' !in name && (host == name || exists rest :: host == name + "." + rest)
  }

  ghost predicate HasKey(meta: NodeMeta, k: string) {
    || k == Decimal.Show(meta.nodeId)
    || (meta.hostname.Some? && (k == meta.hostname.value || IsFirstLabel(k, meta.hostname.value)))
  }

  lemma {:induction false} BeforeSplits(s: string, c: char)
    ensures c !in Before(s, c)
    ensures Before(s, c) == s || (exists rest :: s == Before(s, c) + [c] + rest)
  {
    if s != "" && s[0] != c {
      BeforeSplits(s[1..], c);
      assert s == [s[0]] + s[1..];
      if Before(s[1..], c) != s[1..] {
        var rest :| s[1..] == Before(s[1..], c) + [c] + rest;
        assert s == Before(s, c) + [c] + rest;
      }
    } else if s != "" {
      assert s == Before(s, c) + [c] + s[1..];
    }
  }

  /** What stands before the first dot is the first label, and nothing else is. */
  lemma FirstLabelExactly(name: string, host: string)
    ensures Subdomain(host) == name <==> IsFirstLabel(name, host)
  {
    BeforeSplits(host, '.');
    if Subdomain(host) == name && host != name {
      var rest :| host == Before(host, '.') + ['.'] + rest;
      assert host == name + "." + rest;
    }
    if IsFirstLabel(name, host) {
      if host == name {
        BeforeStops(host, '.', "");
      } else {
        var rest :| host == name + "." + rest;
        BeforeStops(name, '.', rest);
      }
    }
  }

  lemma KeysExactly(meta: NodeMeta, k: string)
    ensures k in KeysOf(meta) <==> HasKey(meta, k)
  {
    if meta.hostname.Some? {
      FirstLabelExactly(k, meta.hostname.value);
    }
  }

  /** In whatever order it is built, the table has the ids, hostnames and first labels of the cached nodes. */
  lemma TableKeysExactly(cache: Cache, order: seq<nat>, k: string)
    requires IsOrder(order, cache.Keys)
    ensures k in TableOf(cache, order) <==> exists id :: id in cache && HasKey(cache[id], k)
    ensures k in TableOf(cache, order) ==>
              exists id :: id in cache && HasKey(cache[id], k) && TableOf(cache, order)[k] == cache[id].port
  {
    TableKeys(cache, order, k);
    forall id | id in cache ensures k in KeysOf(cache[id]) <==> HasKey(cache[id], k) {
      KeysExactly(cache[id], k);
    }
  }

  /// Independence of the iteration order

  /** Nodes that share a key share the port too. */
  ghost predicate NoConflict(cache: Cache) {
    forall a, b, k | a in cache && b in cache && HasKey(cache[a], k) && HasKey(cache[b], k) ::
      cache[a].port == cache[b].port
  }

  lemma {:induction false} TableKeys(cache: Cache, order: seq<nat>, k: string)
    requires forall id | id in order :: id in cache
    ensures k in TableOf(cache, order) <==> exists id :: id in order && k in KeysOf(cache[id])
    ensures k in TableOf(cache, order) ==>
              exists id :: id in order && k in KeysOf(cache[id]) && TableOf(cache, order)[k] == cache[id].port
  {
    if order != [] {
      var n := |order| - 1;
      assert order == order[..n] + [order[n]];
      TableKeys(cache, order[..n], k);
      if k in KeysOf(cache[order[n]]) {
        assert order[n] in order;
      } else if k in TableOf(cache, order) {
        var id :| id in order[..n] && k in KeysOf(cache[id]) && TableOf(cache, order[..n])[k] == cache[id].port;
        assert id in order;
      }
    }
  }

  /** Every cached node that has the key `k` is on `port`. */
  ghost predicate KeyOnPort(cache: Cache, k: string, port: nat) {
    forall id | id in cache && HasKey(cache[id], k) :: cache[id].port == port
  }

  lemma KeyLookup(cache: Cache, order: seq<nat>, id: nat, k: string)
    requires IsOrder(order, cache.Keys) && id in cache && HasKey(cache[id], k)
    requires KeyOnPort(cache, k, cache[id].port)
    ensures k in TableOf(cache, order) && TableOf(cache, order)[k] == cache[id].port
  {
    TableKeysExactly(cache, order, k);
  }

  lemma LastWins(cache: Cache, order: seq<nat>, k: string)
    requires order != [] && (forall id | id in order :: id in cache) && HasKey(cache[order[|order| - 1]], k)
    ensures k in TableOf(cache, order) && TableOf(cache, order)[k] == cache[order[|order| - 1]].port
  {
    KeysExactly(cache[order[|order| - 1]], k);
  }

  /** An order that visits `last` at the end. */
  lemma OrderEndingIn(ids: set<nat>, last: nat) returns (order: seq<nat>)
    requires last in ids
    ensures IsOrder(order, ids) && order != [] && order[|order| - 1] == last
  {
    var rest := Ascending(ids - {last});
    order := rest + [last];
    forall id ensures id in order <==> id in ids {
      assert id in order <==> id in rest || id == last;
    }
    forall i, j | 0 <= i < j < |order| ensures order[i] != order[j] {
      assert order[i] in rest;
    }
  }

  /** Every iteration order builds the same table exactly when no key is shared by nodes on different ports. */
  lemma OrderIndependentIff(cache: Cache)
    ensures (forall o1, o2 | IsOrder(o1, cache.Keys) && IsOrder(o2, cache.Keys) ::
               TableOf(cache, o1) == TableOf(cache, o2))
            <==> NoConflict(cache)
  {
    if NoConflict(cache) {
      forall o1, o2 | IsOrder(o1, cache.Keys) && IsOrder(o2, cache.Keys)
        ensures TableOf(cache, o1) == TableOf(cache, o2)
      {
        SameTable(cache, o1, o2);
      }
    } else {
      var a, b, k :| a in cache && b in cache && HasKey(cache[a], k) && HasKey(cache[b], k) &&
                     cache[a].port != cache[b].port;
      var o1 := OrderEndingIn(cache.Keys, a);
      var o2 := OrderEndingIn(cache.Keys, b);
      LastWins(cache, o1, k);
      LastWins(cache, o2, k);
      assert TableOf(cache, o1) != TableOf(cache, o2);
    }
  }

  lemma SameTable(cache: Cache, o1: seq<nat>, o2: seq<nat>)
    requires NoConflict(cache) && IsOrder(o1, cache.Keys) && IsOrder(o2, cache.Keys)
    ensures TableOf(cache, o1) == TableOf(cache, o2)
  {
    var t1, t2 := TableOf(cache, o1), TableOf(cache, o2);
    forall k ensures k in t1 <==> k in t2 {
      TableKeysExactly(cache, o1, k);
      TableKeysExactly(cache, o2, k);
    }
    forall k | k in t1 ensures t1[k] == t2[k] {
      TableKeysExactly(cache, o1, k);
      var id :| id in cache && HasKey(cache[id], k) && t1[k] == cache[id].port;
      KeyLookup(cache, o2, id, k);
    }
  }

  /// The lookup

  /** The port a request goes to: by full host, else by subdomain, ignoring a port in the header. */
  function Route(table: Table, hostHeader: string): Option<nat> {
    var host := Before(hostHeader, ':');
    if host in table then Some(table[host])
    else if Subdomain(host) in table then Some(table[Subdomain(host)])
    else None
  }

  lemma {:induction false} BeforeStops(a: string, c: char, rest: string)
    requires c !in a
    ensures Before(a, c) == a
    ensures Before(a + [c] + rest, c) == a
  {
    var s := a + [c] + rest;
    if a != "" {
      assert s[1..] == a[1..] + [c] + rest;
      BeforeStops(a[1..], c, rest);
    }
  }

  /** Whatever the iteration order, requests with this header go to `port`. */
  ghost predicate AlwaysRouted(cache: Cache, hostHeader: string, port: nat) {
    forall order | IsOrder(order, cache.Keys) :: Route(TableOf(cache, order), hostHeader) == Some(port)
  }

  /**
   * Where a header is looked up under the key `k` of a node, it always leads to that node's port exactly
   * when every node with that key has that port.
   */
  lemma AlwaysRoutedIff(cache: Cache, hostHeader: string, id: nat, k: string)
    requires id in cache && HasKey(cache[id], k)
    requires var host := Before(hostHeader, ':');
             k == host || (k == Subdomain(host) && forall a | a in cache :: !HasKey(cache[a], host))
    ensures AlwaysRouted(cache, hostHeader, cache[id].port) <==> KeyOnPort(cache, k, cache[id].port)
  {
    var host := Before(hostHeader, ':');
    forall order | IsOrder(order, cache.Keys)
      ensures k in TableOf(cache, order) && Route(TableOf(cache, order), hostHeader) == Some(TableOf(cache, order)[k])
    {
      TableKeysExactly(cache, order, host);
      TableKeysExactly(cache, order, k);
    }
    if KeyOnPort(cache, k, cache[id].port) {
      forall order | IsOrder(order, cache.Keys) ensures TableOf(cache, order)[k] == cache[id].port {
        KeyLookup(cache, order, id, k);
      }
    } else {
      var other :| other in cache && HasKey(cache[other], k) && cache[other].port != cache[id].port;
      var order := OrderEndingIn(cache.Keys, other);
      LastWins(cache, order, k);
    }
  }

  /**
   * The hostname of a cached node, with or without a port in the header, always leads to that node's
   * port exactly when every cached node with that key has that port.
   */
  lemma KnownHostRouted(cache: Cache, id: nat, port: string)
    requires id in cache && cache[id].hostname.Some? && ':' !in cache[id].hostname.value
    ensures var host := cache[id].hostname.value;
            && (AlwaysRouted(cache, host, cache[id].port) <==> KeyOnPort(cache, host, cache[id].port))
            && (AlwaysRouted(cache, host + ":" + port, cache[id].port) <==> KeyOnPort(cache, host, cache[id].port))
  {
    var host := cache[id].hostname.value;
    BeforeStops(host, ':', port);
    AlwaysRoutedIff(cache, host, id, host);
    AlwaysRoutedIff(cache, host + ":" + port, id, host);
  }

  /**
   * Under any domain of which the full host is no key, the first label of a cached node's hostname, or its
   * id, always leads to that node's port exactly when every cached node with that key has that port.
   */
  lemma SubdomainRouted(cache: Cache, id: nat, name: string, domain: string)
    requires id in cache && '.' !in name && ':' !in name && ':' !in domain
    requires || name == Decimal.Show(cache[id].nodeId)
             || cache[id].hostname == Some(name)
             || (exists rest :: cache[id].hostname == Some(name + "." + rest))
    requires forall a | a in cache :: !HasKey(cache[a], name + "." + domain)
    ensures AlwaysRouted(cache, name + "." + domain, cache[id].port) <==> KeyOnPort(cache, name, cache[id].port)
  {
    var host := name + "." + domain;
    BeforeStops(host, ':', "");
    BeforeStops(name, '.', domain);
    assert HasKey(cache[id], name);
    AlwaysRoutedIff(cache, host, id, name);
  }
}
