/**
 * Conversation branches: the parent-to-children index of a message map, siblings of a message, and
 * the newest leaf below a message.
 */
module MessageTree {
  import opened Prelude

  type Id = string

  datatype Role = Tool | Conversation

  /** `createdAt` is the ISO text; `millis` is what `new Date(createdAt).getTime()` makes of it. */
  datatype Message = Message(id: Id, backendId: Option<Id>, role: Role, parent: Option<Id>,
                             createdAt: string, millis: int)

  datatype Entry = Entry(key: Id, message: Message)

  /** A JavaScript `Map`: its entries in insertion order. */
  type MessageMap = seq<Entry>

  function Values(m: MessageMap): seq<Message> {
    seq(|m|, i requires 0 <= i < |m| => m[i].message)
  }

  /** `values()` goes through the entries in insertion order. */
  lemma ValuesInOrder(m: MessageMap, more: MessageMap, e: Entry)
    ensures Values(m + more) == Values(m) + Values(more)
    ensures Values([e]) == [e.message]
  {}

  function Get(m: MessageMap, key: Id): Option<Message> {
    if m == [] then None else if m[0].key == key then Some(m[0].message) else Get(m[1..], key)
  }

  lemma {:induction false} GetFindsEntry(m: MessageMap, key: Id)
    ensures Get(m, key).Some? ==> exists i :: 0 <= i < |m| && m[i] == Entry(key, Get(m, key).value)
    ensures Get(m, key).None? ==> forall i | 0 <= i < |m| :: m[i].key != key
  {
    if m != [] && m[0].key != key {
      GetFindsEntry(m[1..], key);
      if Get(m[1..], key).Some? {
        var i :| 0 <= i < |m[1..]| && m[1..][i] == Entry(key, Get(m[1..], key).value);
        assert m[i + 1] == Entry(key, Get(m, key).value);
      }
    } else if m != [] {
      assert m[0] == Entry(key, Get(m, key).value);
    }
  }

  function EffectiveId(msg: Message): Id {
    if msg.backendId.Some? then msg.backendId.value else msg.id
  }

  /// Stable sorting by time

  /** Puts `x` behind every element that is not later than `x`. */
  function InsertByTime(s: seq<Message>, x: Message): seq<Message> {
    if s == [] || s[|s| - 1].millis <= x.millis then s + [x]
    else InsertByTime(s[..|s| - 1], x) + [s[|s| - 1]]
  }

  function SortByTime(s: seq<Message>): seq<Message> {
    if s == [] then [] else InsertByTime(SortByTime(s[..|s| - 1]), s[|s| - 1])
  }

  ghost predicate SortedByTime(s: seq<Message>) {
    forall i, j | 0 <= i < j < |s| :: s[i].millis <= s[j].millis
  }

  /** The elements of `s` stamped with time `t`, in order. */
  function At(s: seq<Message>, t: int): seq<Message> {
    if s == [] then []
    else At(s[..|s| - 1], t) + (if s[|s| - 1].millis == t then [s[|s| - 1]] else [])
  }

  lemma {:induction false} InsertKeepsMembers(s: seq<Message>, x: Message)
    ensures multiset(InsertByTime(s, x)) == multiset(s) + multiset{x}
  {
    if s != [] && s[|s| - 1].millis > x.millis {
      var n := |s| - 1;
      InsertKeepsMembers(s[..n], x);
      assert s == s[..n] + [s[n]];
    }
  }

  lemma {:induction false} InsertKeepsOrder(s: seq<Message>, x: Message)
    requires SortedByTime(s)
    ensures SortedByTime(InsertByTime(s, x))
  {
    if s != [] && s[|s| - 1].millis > x.millis {
      var n := |s| - 1;
      var rest := InsertByTime(s[..n], x);
      InsertKeepsOrder(s[..n], x);
      InsertedIsEarlier(s[..n], x, s[n].millis);
    }
  }

  lemma InsertedIsEarlier(s: seq<Message>, x: Message, t: int)
    requires x.millis <= t && forall i | 0 <= i < |s| :: s[i].millis <= t
    ensures forall i | 0 <= i < |InsertByTime(s, x)| :: InsertByTime(s, x)[i].millis <= t
  {
    var r := InsertByTime(s, x);
    InsertKeepsMembers(s, x);
    forall i | 0 <= i < |r| ensures r[i].millis <= t {
      assert r[i] in multiset(r);
      assert r[i] == x || r[i] in s;
    }
  }

  lemma AtOneMore(s: seq<Message>, last: Message, t: int)
    ensures At(s + [last], t) == if last.millis == t then At(s, t) + [last] else At(s, t)
  {
    assert (s + [last])[..|s|] == s;
    assert At(s, t) + [] == At(s, t);
  }

  lemma {:induction false} InsertIsStable(s: seq<Message>, x: Message, t: int)
    ensures At(InsertByTime(s, x), t) == if x.millis == t then At(s, t) + [x] else At(s, t)
  {
    if s == [] || s[|s| - 1].millis <= x.millis {
      AtOneMore(s, x, t);
    } else {
      var rest, last := s[..|s| - 1], s[|s| - 1];
      assert InsertByTime(s, x) == InsertByTime(rest, x) + [last];
      InsertIsStable(rest, x, t);
      AtOneMore(InsertByTime(rest, x), last, t);
      AtOneMore(rest, last, t);
      assert s == rest + [last];
    }
  }

  lemma {:induction false} SortIsSortedPermutation(s: seq<Message>)
    ensures SortedByTime(SortByTime(s))
    ensures multiset(SortByTime(s)) == multiset(s)
  {
    if s != [] {
      var n := |s| - 1;
      SortIsSortedPermutation(s[..n]);
      InsertKeepsOrder(SortByTime(s[..n]), s[n]);
      InsertKeepsMembers(SortByTime(s[..n]), s[n]);
      assert s == s[..n] + [s[n]];
    }
  }

  lemma {:induction false} SortIsStable(s: seq<Message>, t: int)
    ensures At(SortByTime(s), t) == At(s, t)
  {
    if s != [] {
      var n := |s| - 1;
      SortIsStable(s[..n], t);
      InsertIsStable(SortByTime(s[..n]), s[n], t);
      AtOneMore(s[..n], s[n], t);
      assert s == s[..n] + [s[n]];
    }
  }

  /** `sort` with a time comparator: a sorted permutation that keeps the order of equal times. */
  lemma SortByTimeProperties(s: seq<Message>)
    ensures SortedByTime(SortByTime(s))
    ensures multiset(SortByTime(s)) == multiset(s)
    ensures forall t :: At(SortByTime(s), t) == At(s, t)
  {
    SortIsSortedPermutation(s);
    forall t ensures At(SortByTime(s), t) == At(s, t) {
      SortIsStable(s, t);
    }
  }

  lemma SortKeepsMembers(s: seq<Message>)
    ensures forall x :: x in SortByTime(s) <==> x in s
    ensures |SortByTime(s)| == |s|
  {
    SortIsSortedPermutation(s);
    assert forall x :: x in s <==> x in multiset(s);
    assert forall x :: x in SortByTime(s) <==> x in multiset(SortByTime(s));
    assert |multiset(s)| == |s| && |multiset(SortByTime(s))| == |SortByTime(s)|;
  }

  /// The child index and the sibling scan

  /** The non-tool messages with parent `parent`, in map order. */
  function Scan(msgs: seq<Message>, parent: Option<Id>): seq<Message> {
    if msgs == [] then []
    else
      var last := msgs[|msgs| - 1];
      Scan(msgs[..|msgs| - 1], parent) + (if last.role != Tool && last.parent == parent then [last] else [])
  }

  predicate HasId(msgs: seq<Message>, id: Id) {
    exists i :: 0 <= i < |msgs| && EffectiveId(msgs[i]) == id
  }

  /** Keeps the first message of each effective id. */
  function Dedupe(msgs: seq<Message>): seq<Message> {
    if msgs == [] then []
    else
      var kept := Dedupe(msgs[..|msgs| - 1]);
      var last := msgs[|msgs| - 1];
      if HasId(kept, EffectiveId(last)) then kept else kept + [last]
  }

  ghost predicate DistinctIds(msgs: seq<Message>) {
    forall i, j | 0 <= i < j < |msgs| :: EffectiveId(msgs[i]) != EffectiveId(msgs[j])
  }

  lemma {:induction false} DedupeKeepsFirsts(msgs: seq<Message>)
    ensures DistinctIds(Dedupe(msgs))
    ensures forall x | x in Dedupe(msgs) :: x in msgs
  {
    if msgs != [] {
      var n := |msgs| - 1;
      DedupeKeepsFirsts(msgs[..n]);
      assert msgs == msgs[..n] + [msgs[n]];
    }
  }

  /** The effective ids occurring in `msgs`. */
  ghost function Ids(msgs: seq<Message>): set<Id> {
    set i | 0 <= i < |msgs| :: EffectiveId(msgs[i])
  }

  lemma IdsOneMore(msgs: seq<Message>, msg: Message)
    ensures Ids(msgs + [msg]) == Ids(msgs) + {EffectiveId(msg)}
  {
    var more := msgs + [msg];
    assert more[|msgs|] == msg;
    forall i | 0 <= i < |msgs| ensures EffectiveId(msgs[i]) in Ids(more) {
      assert more[i] == msgs[i];
    }
  }

  lemma {:induction false} DedupeKeepsIds(msgs: seq<Message>)
    ensures Ids(Dedupe(msgs)) == Ids(msgs)
  {
    if msgs != [] {
      var n := |msgs| - 1;
      DedupeKeepsIds(msgs[..n]);
      assert msgs == msgs[..n] + [msgs[n]];
      IdsOneMore(msgs[..n], msgs[n]);
      IdsOneMore(Dedupe(msgs[..n]), msgs[n]);
      if HasId(Dedupe(msgs[..n]), EffectiveId(msgs[n])) {
        var i :| 0 <= i < |Dedupe(msgs[..n])| && EffectiveId(Dedupe(msgs[..n])[i]) == EffectiveId(msgs[n]);
        assert EffectiveId(msgs[n]) in Ids(Dedupe(msgs[..n]));
      }
    }
  }

  lemma HasIdIsMembership(msgs: seq<Message>, id: Id)
    ensures HasId(msgs, id) <==> id in Ids(msgs)
  {}

  lemma DistinctOneMore(msgs: seq<Message>, msg: Message)
    ensures DistinctIds(msgs + [msg]) <==> DistinctIds(msgs) && EffectiveId(msg) !in Ids(msgs)
  {
    var more := msgs + [msg];
    assert forall i | 0 <= i < |msgs| :: more[i] == msgs[i];
    if EffectiveId(msg) in Ids(msgs) {
      var i :| 0 <= i < |msgs| && EffectiveId(msgs[i]) == EffectiveId(msg);
      assert EffectiveId(more[i]) == EffectiveId(more[|msgs|]);
    }
    if DistinctIds(more) {
      forall i, j | 0 <= i < j < |msgs| ensures EffectiveId(msgs[i]) != EffectiveId(msgs[j]) {
        assert EffectiveId(more[i]) != EffectiveId(more[j]);
      }
    }
  }

  lemma DedupeStep(msgs: seq<Message>, msg: Message)
    ensures Dedupe(msgs + [msg]) == if EffectiveId(msg) in Ids(msgs) then Dedupe(msgs) else Dedupe(msgs) + [msg]
  {
    DedupeOneMore(msgs, msg);
    DedupeKeepsIds(msgs);
    HasIdIsMembership(Dedupe(msgs), EffectiveId(msg));
  }

  /** Deduplication changes nothing if the ids are distinct, and otherwise shortens the list. */
  ghost predicate ShortensIfRepeated(msgs: seq<Message>) {
    && |Dedupe(msgs)| <= |msgs|
    && (|Dedupe(msgs)| == |msgs| ==> DistinctIds(msgs))
    && (DistinctIds(msgs) ==> Dedupe(msgs) == msgs)
  }

  lemma ShortensOneMore(msgs: seq<Message>, msg: Message)
    requires ShortensIfRepeated(msgs)
    ensures ShortensIfRepeated(msgs + [msg])
  {
    DedupeStep(msgs, msg);
    DistinctOneMore(msgs, msg);
  }

  lemma {:induction false} DedupeShortensIff(msgs: seq<Message>)
    ensures ShortensIfRepeated(msgs)
  {
    if msgs != [] {
      var rest := msgs[..|msgs| - 1];
      DedupeShortensIff(rest);
      ShortensOneMore(rest, msgs[|msgs| - 1]);
      assert msgs == rest + [msgs[|msgs| - 1]];
    }
  }

  /** `childMap.get(id) || []`: a falsy parent id is never a key. */
  function ChildrenOf(msgs: seq<Message>, id: Id): seq<Message> {
    if id == "" then [] else SortByTime(Dedupe(Scan(msgs, Some(id))))
  }

  function Listed(childMap: map<Id, seq<Message>>, id: Id): seq<Message> {
    if id in childMap then childMap[id] else []
  }

  /** `childMap` lists the deduplicated children of `id` in `msgs`, in map order. */
  ghost predicate ListsAt(childMap: map<Id, seq<Message>>, msgs: seq<Message>, id: Id) {
    && (id in childMap <==> id != "" && Scan(msgs, Some(id)) != [])
    && (id != "" ==> Listed(childMap, id) == Dedupe(Scan(msgs, Some(id))))
  }

  ghost predicate Lists(childMap: map<Id, seq<Message>>, msgs: seq<Message>) {
    forall id :: ListsAt(childMap, msgs, id)
  }

  lemma ScanOneMore(msgs: seq<Message>, msg: Message, parent: Option<Id>)
    ensures Scan(msgs + [msg], parent) ==
            if msg.role != Tool && msg.parent == parent then Scan(msgs, parent) + [msg] else Scan(msgs, parent)
  {
    assert (msgs + [msg])[..|msgs|] == msgs;
    assert Scan(msgs, parent) + [] == Scan(msgs, parent);
  }

  lemma DedupeOneMore(msgs: seq<Message>, msg: Message)
    ensures Dedupe(msgs + [msg]) ==
            if HasId(Dedupe(msgs), EffectiveId(msg)) then Dedupe(msgs) else Dedupe(msgs) + [msg]
  {
    assert (msgs + [msg])[..|msgs|] == msgs;
  }

  lemma ListsAfterOther(childMap: map<Id, seq<Message>>, msgs: seq<Message>, msg: Message)
    requires Lists(childMap, msgs) && (msg.role == Tool || msg.parent.None? || msg.parent.value == "")
    ensures Lists(childMap, msgs + [msg])
  {
    forall id ensures ListsAt(childMap, msgs + [msg], id) {
      assert ListsAt(childMap, msgs, id);
      ScanOneMore(msgs, msg, Some(id));
    }
  }

  lemma ListsAfterChild(childMap: map<Id, seq<Message>>, msgs: seq<Message>, msg: Message, pid: Id)
    requires Lists(childMap, msgs) && msg.role != Tool && msg.parent == Some(pid) && pid != ""
    ensures var known := Listed(childMap, pid);
            Lists(childMap[pid := if HasId(known, EffectiveId(msg)) then known else known + [msg]], msgs + [msg])
  {
    var known := Listed(childMap, pid);
    var childMap' := childMap[pid := if HasId(known, EffectiveId(msg)) then known else known + [msg]];
    forall id ensures ListsAt(childMap', msgs + [msg], id) {
      assert ListsAt(childMap, msgs, id);
      ScanOneMore(msgs, msg, Some(id));
      if id == pid {
        DedupeOneMore(Scan(msgs, Some(pid)), msg);
      }
    }
  }

  method BuildChildMap(msgs: seq<Message>) returns (childMap: map<Id, seq<Message>>)
    ensures forall id :: id in childMap <==> id != "" && Scan(msgs, Some(id)) != []
    ensures forall id | id in childMap :: childMap[id] == ChildrenOf(msgs, id)
    ensures forall id | id !in childMap :: ChildrenOf(msgs, id) == []
  {
    childMap := map[];
    for i := 0 to |msgs|
      invariant Lists(childMap, msgs[..i])
    {
      var msg := msgs[i];
      assert msgs[..i + 1] == msgs[..i] + [msg];
      if msg.role == Tool || msg.parent.None? || msg.parent.value == "" {
        ListsAfterOther(childMap, msgs[..i], msg);
      } else {
        var pid := msg.parent.value;
        ListsAfterChild(childMap, msgs[..i], msg, pid);
        ghost var before, known := childMap, Listed(childMap, pid);
        if pid !in childMap {
          childMap := childMap[pid := []];
        }
        if !HasId(childMap[pid], EffectiveId(msg)) {
          childMap := childMap[pid := childMap[pid] + [msg]];
        }
        assert childMap == before[pid := if HasId(known, EffectiveId(msg)) then known else known + [msg]];
      }
    }
    assert msgs[..|msgs|] == msgs;
    ghost var unsorted := childMap;
    childMap := SortEach(childMap);
    forall id
      ensures id in childMap <==> id != "" && Scan(msgs, Some(id)) != []
      ensures if id in childMap then childMap[id] == ChildrenOf(msgs, id) else ChildrenOf(msgs, id) == []
    {
      assert ListsAt(unsorted, msgs, id);
    }
  }

  method SortEach(unsorted: map<Id, seq<Message>>) returns (childMap: map<Id, seq<Message>>)
    ensures childMap == map id | id in unsorted :: SortByTime(unsorted[id])
  {
    childMap := unsorted;
    var rest := childMap.Keys;
    while rest != {}
      invariant rest <= childMap.Keys == unsorted.Keys
      invariant forall id | id in unsorted ::
                  childMap[id] == if id in rest then unsorted[id] else SortByTime(unsorted[id])
    {
      var id :| id in rest;
      childMap := childMap[id := SortByTime(childMap[id])];
      rest := rest - {id};
    }
  }

  method GetSiblings(msgs: seq<Message>, parentId: Option<Id>) returns (siblings: seq<Message>)
    ensures siblings == SortByTime(Scan(msgs, parentId))
  {
    siblings := [];
    for i := 0 to |msgs|
      invariant siblings == Scan(msgs[..i], parentId)
    {
      assert msgs[..i + 1][..i] == msgs[..i];
      if msgs[i].role != Tool && msgs[i].parent == parentId {
        siblings := siblings + [msgs[i]];
      }
    }
    assert msgs[..|msgs|] == msgs;
    siblings := SortByTime(siblings);
  }

  /** The index agrees with the scan at a parent exactly when that parent's children have distinct ids. */
  lemma ChildIndexEqualsScanIff(msgs: seq<Message>, id: Id)
    requires id != ""
    ensures ChildrenOf(msgs, id) == SortByTime(Scan(msgs, Some(id))) <==> DistinctIds(Scan(msgs, Some(id)))
  {
    var children := Scan(msgs, Some(id));
    DedupeShortensIff(children);
    SortKeepsMembers(children);
    SortKeepsMembers(Dedupe(children));
  }

  lemma {:induction false} ScanMembers(msgs: seq<Message>, parent: Option<Id>)
    ensures forall x :: x in Scan(msgs, parent) <==> x in msgs && x.role != Tool && x.parent == parent
  {
    if msgs != [] {
      var n := |msgs| - 1;
      ScanMembers(msgs[..n], parent);
      assert msgs == msgs[..n] + [msgs[n]];
    }
  }

  lemma ScanIsSubsequence(msgs: seq<Message>, parent: Option<Id>)
    ensures forall x :: x in Scan(msgs, parent) <==> x in msgs && x.role != Tool && x.parent == parent
    ensures DistinctIds(msgs) ==> DistinctIds(Scan(msgs, parent))
  {
    ScanMembers(msgs, parent);
    if DistinctIds(msgs) {
      ScanKeepsDistinct(msgs, parent);
    }
  }

  lemma {:induction false} ScanKeepsDistinct(msgs: seq<Message>, parent: Option<Id>)
    requires DistinctIds(msgs)
    ensures DistinctIds(Scan(msgs, parent))
  {
    if msgs != [] {
      var n := |msgs| - 1;
      var s := Scan(msgs[..n], parent);
      ScanKeepsDistinct(msgs[..n], parent);
      ScanMembers(msgs[..n], parent);
      forall i | 0 <= i < |s| ensures EffectiveId(s[i]) != EffectiveId(msgs[n]) {
        assert s[i] in msgs[..n];
      }
    }
  }

  /** With distinct effective ids, index and scan agree at every parent. */
  lemma ChildIndexEqualsScan(msgs: seq<Message>)
    requires DistinctIds(msgs)
    ensures forall id | id != "" :: ChildrenOf(msgs, id) == SortByTime(Scan(msgs, Some(id)))
  {
    forall id | id != "" ensures ChildrenOf(msgs, id) == SortByTime(Scan(msgs, Some(id))) {
      ScanIsSubsequence(msgs, Some(id));
      ChildIndexEqualsScanIff(msgs, id);
    }
  }

  /// What the index lists, in terms of the two id fields

  /** `c` is the backend id of `x`, or its own id if it has none. */
  ghost predicate GoesBy(x: Message, c: Id) {
    x.backendId == Some(c) || (x.backendId == None && x.id == c)
  }

  ghost predicate AnswersTo(x: Message, parent: Id) {
    x.role != Tool && x.parent == Some(parent)
  }

  /** The scan of a list is that of its parts, one after the other. */
  lemma {:induction false} ScanSplits(a: seq<Message>, b: seq<Message>, parent: Option<Id>)
    ensures Scan(a + b, parent) == Scan(a, parent) + Scan(b, parent)
  {
    if b == [] {
      assert a + b == a;
    } else {
      var rest, last := b[..|b| - 1], b[|b| - 1];
      ScanSplits(a, rest, parent);
      assert a + b == (a + rest) + [last] && b == rest + [last];
      ScanOneMore(a + rest, last, parent);
      ScanOneMore(rest, last, parent);
      AppendAssociates(Scan(a, parent), Scan(rest, parent), last);
    }
  }

  lemma AppendAssociates(a: seq<Message>, b: seq<Message>, x: Message)
    ensures (a + b) + [x] == a + (b + [x])
  {}

  lemma ScanOfOne(x: Message, parent: Option<Id>)
    ensures Scan([x], parent) == if x.role != Tool && x.parent == parent then [x] else []
  {
    assert [x] == [] + [x];
    ScanOneMore([], x, parent);
  }

  lemma SameMembersSameIds(s: seq<Message>, t: seq<Message>, c: Id)
    requires forall x | x in s :: x in t
    ensures HasId(s, c) ==> HasId(t, c)
  {
    if i :| 0 <= i < |s| && EffectiveId(s[i]) == c {
      assert s[i] in t;
    }
  }

  lemma IsChildOfScan(msgs: seq<Message>, parent: Id, c: Id)
    requires parent != ""
    ensures IsChild(msgs, parent, c) <==> HasId(Scan(msgs, Some(parent)), c)
  {
    var scanned := Scan(msgs, Some(parent));
    SortKeepsMembers(Dedupe(scanned));
    DedupeKeepsIds(scanned);
    HasIdIsMembership(Dedupe(scanned), c);
    HasIdIsMembership(scanned, c);
    SameMembersSameIds(Dedupe(scanned), ChildrenOf(msgs, parent), c);
    SameMembersSameIds(ChildrenOf(msgs, parent), Dedupe(scanned), c);
  }

  lemma ScanHasIdExactly(msgs: seq<Message>, parent: Id, c: Id)
    ensures HasId(Scan(msgs, Some(parent)), c) <==> exists x :: x in msgs && AnswersTo(x, parent) && GoesBy(x, c)
  {
    var scanned := Scan(msgs, Some(parent));
    ScanIsSubsequence(msgs, Some(parent));
    if x :| x in msgs && AnswersTo(x, parent) && GoesBy(x, c) {
      assert x in scanned;
    }
    if i :| 0 <= i < |scanned| && EffectiveId(scanned[i]) == c {
      assert GoesBy(scanned[i], c);
    }
  }

  /** The children of a message go by exactly the ids of the non-tool messages that answer it. */
  lemma IsChildExactly(msgs: seq<Message>, parent: Id, c: Id)
    ensures IsChild(msgs, parent, c) <==>
            parent != "" && exists x :: x in msgs && AnswersTo(x, parent) && GoesBy(x, c)
  {
    if parent != "" {
      IsChildOfScan(msgs, parent, c);
      ScanHasIdExactly(msgs, parent, c);
    }
  }

  /** Of the messages that go by one id, deduplication keeps the first. */
  lemma {:induction false} DedupeKeepsFirstOfEach(msgs: seq<Message>, i: nat, c: Id)
    requires i < |msgs| && GoesBy(msgs[i], c) && forall j | 0 <= j < i :: !GoesBy(msgs[j], c)
    ensures msgs[i] in Dedupe(msgs)
  {
    var rest := msgs[..|msgs| - 1];
    if i < |msgs| - 1 {
      DedupeKeepsFirstOfEach(rest, i, c);
    } else {
      DedupeKeepsIds(rest);
      HasIdIsMembership(Dedupe(rest), c);
      forall j | 0 <= j < |rest| ensures EffectiveId(rest[j]) != c {
        assert rest[j] == msgs[j] && !GoesBy(msgs[j], c);
      }
    }
  }

  /** No two messages of the index under one parent go by the same id. */
  lemma ChildrenGoByDistinctIds(msgs: seq<Message>, parent: Id, x: Message, y: Message, c: Id)
    requires x in ChildrenOf(msgs, parent) && y in ChildrenOf(msgs, parent) && GoesBy(x, c) && GoesBy(y, c)
    ensures x == y
  {
    var kept := Dedupe(Scan(msgs, Some(parent)));
    SortKeepsMembers(kept);
    DedupeKeepsFirsts(Scan(msgs, Some(parent)));
    var i :| 0 <= i < |kept| && kept[i] == x;
    var j :| 0 <= j < |kept| && kept[j] == y;
    assert EffectiveId(kept[i]) == EffectiveId(kept[j]);
  }

  lemma ChildrenCount(msgs: seq<Message>, parent: Id)
    requires parent != ""
    ensures |ChildrenOf(msgs, parent)| == |Ids(Scan(msgs, Some(parent)))|
  {
    SortKeepsMembers(Dedupe(Scan(msgs, Some(parent))));
    DedupeKeepsFirsts(Scan(msgs, Some(parent)));
    DedupeKeepsIds(Scan(msgs, Some(parent)));
    DistinctIdsCount(Dedupe(Scan(msgs, Some(parent))));
  }

  lemma ScanAround(msgs: seq<Message>, parent: Id, i: nat)
    requires i < |msgs| && AnswersTo(msgs[i], parent)
    ensures Scan(msgs, Some(parent)) ==
            Scan(msgs[..i], Some(parent)) + [msgs[i]] + Scan(msgs[i + 1..], Some(parent))
  {
    assert msgs == (msgs[..i] + [msgs[i]]) + msgs[i + 1..];
    ScanSplits(msgs[..i] + [msgs[i]], msgs[i + 1..], Some(parent));
    ScanSplits(msgs[..i], [msgs[i]], Some(parent));
    ScanOfOne(msgs[i], Some(parent));
  }

  /** Of the answers that go by one id, the index lists the first. */
  lemma FirstAnswerIsListed(msgs: seq<Message>, parent: Id, i: nat, c: Id)
    requires parent != "" && i < |msgs| && AnswersTo(msgs[i], parent) && GoesBy(msgs[i], c)
    requires forall j | 0 <= j < i :: !(AnswersTo(msgs[j], parent) && GoesBy(msgs[j], c))
    ensures msgs[i] in ChildrenOf(msgs, parent)
  {
    var before, scanned := Scan(msgs[..i], Some(parent)), Scan(msgs, Some(parent));
    ScanIsSubsequence(msgs[..i], Some(parent));
    ScanAround(msgs, parent, i);
    forall j | 0 <= j < |before| ensures !GoesBy(scanned[j], c) {
      assert scanned[j] == before[j] && before[j] in msgs[..i];
    }
    DedupeKeepsFirstOfEach(scanned, |before|, c);
    SortKeepsMembers(Dedupe(scanned));
  }

  lemma {:induction false} DistinctIdsCount(msgs: seq<Message>)
    requires DistinctIds(msgs)
    ensures |Ids(msgs)| == |msgs|
  {
    if msgs != [] {
      var rest, last := msgs[..|msgs| - 1], msgs[|msgs| - 1];
      DistinctIdsCount(rest);
      assert msgs == rest + [last];
      IdsOneMore(rest, last);
      DistinctOneMore(rest, last);
    }
  }

  /// Reachability

  predicate IsChild(msgs: seq<Message>, parent: Id, child: Id) {
    HasId(ChildrenOf(msgs, parent), child)
  }

  ghost predicate IsPath(msgs: seq<Message>, path: seq<Id>) {
    path != [] && forall i | 0 <= i < |path| - 1 :: IsChild(msgs, path[i], path[i + 1])
  }

  ghost predicate IsPathBetween(msgs: seq<Message>, path: seq<Id>, start: Id, end: Id) {
    IsPath(msgs, path) && path[0] == start && path[|path| - 1] == end
  }

  ghost predicate Reachable(msgs: seq<Message>, start: Id, end: Id) {
    exists path :: IsPathBetween(msgs, path, start, end)
  }

  lemma ReachesItself(msgs: seq<Message>, start: Id)
    ensures Reachable(msgs, start, start)
  {
    assert IsPathBetween(msgs, [start], start, start);
  }

  lemma ReachesChild(msgs: seq<Message>, start: Id, id: Id, child: Id)
    requires Reachable(msgs, start, id) && IsChild(msgs, id, child)
    ensures Reachable(msgs, start, child)
  {
    var path :| IsPathBetween(msgs, path, start, id);
    assert IsPathBetween(msgs, path + [child], start, child);
  }

  /** A set with the start and all children of its members holds everything reachable. */
  lemma {:induction false} ClosedSetHoldsPath(msgs: seq<Message>, closed: set<Id>, path: seq<Id>)
    requires IsPath(msgs, path) && path[0] in closed
    requires forall x, y | x in closed && IsChild(msgs, x, y) :: y in closed
    ensures path[|path| - 1] in closed
  {
    if |path| > 1 {
      TailIsPath(msgs, path);
      ClosedSetHoldsPath(msgs, closed, path[1..]);
    }
  }

  /// Comparing ISO times as text

  /** `a <= b` on strings. */
  predicate TextLe(a: string, b: string) {
    a == "" || (b != "" && (a[0] < b[0] || (a[0] == b[0] && TextLe(a[1..], b[1..]))))
  }

  lemma {:induction false} TextLeReflexive(a: string)
    ensures TextLe(a, a)
  {
    if a != "" {
      TextLeReflexive(a[1..]);
    }
  }

  lemma {:induction false} TextLeTotal(a: string, b: string)
    ensures TextLe(a, b) || TextLe(b, a)
  {
    if a != "" && b != "" {
      TextLeTotal(a[1..], b[1..]);
    }
  }

  lemma {:induction false} TextLeTransitive(a: string, b: string, c: string)
    requires TextLe(a, b) && TextLe(b, c)
    ensures TextLe(a, c)
  {
    if a != "" && a[0] == b[0] == c[0] {
      TextLeTransitive(a[1..], b[1..], c[1..]);
    }
  }

  /** The texts first differ at `k`, where `a` has the smaller character. */
  ghost predicate SmallerAt(a: string, b: string, k: nat) {
    k < |a| && k < |b| && a[..k] == b[..k] && a[k] < b[k]
  }

  lemma SmallerInTails(a: string, b: string, k: nat)
    requires a != "" && b != "" && a[0] == b[0]
    ensures SmallerAt(a, b, k + 1) <==> SmallerAt(a[1..], b[1..], k)
  {
    if k < |a[1..]| && k < |b[1..]| {
      assert a[..k + 1] == [a[0]] + a[1..][..k] && b[..k + 1] == [b[0]] + b[1..][..k];
      assert a[..k + 1][1..] == a[1..][..k] && b[..k + 1][1..] == b[1..][..k];
    }
  }

  lemma NotSmallerAt(a: string, b: string, k: nat)
    requires a != "" && b != "" && a[0] > b[0]
    ensures !SmallerAt(a, b, k)
  {
    if 0 < k <= |a| && k <= |b| {
      assert a[..k][0] == a[0] && b[..k][0] == b[0];
    }
  }

  lemma PrefixInTails(a: string, b: string)
    requires a != "" && b != "" && a[0] == b[0]
    ensures a <= b <==> a[1..] <= b[1..]
  {
    assert a == [a[0]] + a[1..] && b == [b[0]] + b[1..];
  }

  /** Text order: a prefix comes first, and otherwise the smaller character at the first difference decides. */
  lemma {:induction false} TextLeExactly(a: string, b: string)
    ensures TextLe(a, b) <==> a <= b || exists k: nat :: SmallerAt(a, b, k)
  {
    if a != "" && b != "" {
      if a[0] == b[0] {
        TextLeExactly(a[1..], b[1..]);
        PrefixInTails(a, b);
        if k: nat :| SmallerAt(a[1..], b[1..], k) {
          SmallerInTails(a, b, k);
        }
        if k: nat :| SmallerAt(a, b, k) {
          SmallerInTails(a, b, k - 1);
        }
      } else if a[0] < b[0] {
        assert SmallerAt(a, b, 0);
      } else {
        forall k: nat ensures !SmallerAt(a, b, k) {
          NotSmallerAt(a, b, k);
        }
      }
    }
  }

  /// The newest leaf

  function TimeOf(m: MessageMap, id: Id): string {
    match Get(m, id) case Some(msg) => msg.createdAt case None => ""
  }

  /** A childless message of the map that is not a tool message. */
  ghost predicate IsLeaf(m: MessageMap, id: Id) {
    && ChildrenOf(Values(m), id) == []
    && Get(m, id).Some?
    && Get(m, id).value.role != Tool
  }

  ghost predicate ReachableLeaf(m: MessageMap, start: Id, id: Id) {
    Reachable(Values(m), start, id) && IsLeaf(m, id)
  }

  /**
   * What `findNewestLeaf` promises for a start id of the map: no reachable leaf is newer than the
   * result, and the start itself is returned only when every reachable leaf is older than it.
   */
  ghost predicate IsNewest(m: MessageMap, start: Id, result: Id) {
    && (result == start || ReachableLeaf(m, start, result))
    && TextLe(TimeOf(m, start), TimeOf(m, result))
    && (forall x | ReachableLeaf(m, start, x) :: TextLe(TimeOf(m, x), TimeOf(m, result)))
    && (IsLeaf(m, result) || forall x | ReachableLeaf(m, start, x) :: !TextLe(TimeOf(m, start), TimeOf(m, x)))
  }

  /** The loop's account of the leaves among `visited`. */
  ghost predicate BestSoFar(m: MessageMap, start: Id, visited: set<Id>, best: Id, bestTime: string) {
    && bestTime == TimeOf(m, best)
    && (best == start || (best in visited && IsLeaf(m, best)))
    && TextLe(TimeOf(m, start), bestTime)
    && (forall x | x in visited && IsLeaf(m, x) :: TextLe(TimeOf(m, x), bestTime))
    && (IsLeaf(m, best) || forall x | x in visited && IsLeaf(m, x) :: !TextLe(TimeOf(m, start), TimeOf(m, x)))
  }

  lemma BestAfterLeaf(m: MessageMap, start: Id, visited: set<Id>, best: Id, bestTime: string, leaf: Id)
    requires BestSoFar(m, start, visited, best, bestTime) && IsLeaf(m, leaf)
    ensures var time := TimeOf(m, leaf);
            if bestTime == "" || TextLe(bestTime, time)
            then BestSoFar(m, start, visited + {leaf}, leaf, time)
            else BestSoFar(m, start, visited + {leaf}, best, bestTime)
  {
    var time := TimeOf(m, leaf);
    TextLeReflexive(time);
    if TextLe(bestTime, time) {
      TextLeTransitive(TimeOf(m, start), bestTime, time);
      forall x | x in visited && IsLeaf(m, x) ensures TextLe(TimeOf(m, x), time) {
        TextLeTransitive(TimeOf(m, x), bestTime, time);
      }
    } else {
      TextLeTotal(bestTime, time);
      if !IsLeaf(m, best) {
        assert best == start;
      }
    }
  }

  lemma BestAfterOther(m: MessageMap, start: Id, visited: set<Id>, best: Id, bestTime: string, id: Id)
    requires BestSoFar(m, start, visited, best, bestTime) && (!IsLeaf(m, id) || id in visited)
    ensures BestSoFar(m, start, visited + {id}, best, bestTime)
  {}

  /** What visiting one id does to the running best. */
  method Visit(m: MessageMap, children: seq<Message>, id: Id, best: Id, bestTime: string,
               ghost start: Id, ghost visited: set<Id>)
    returns (newest: Id, newestTime: string)
    requires children == ChildrenOf(Values(m), id)
    requires BestSoFar(m, start, visited, best, bestTime)
    ensures BestSoFar(m, start, visited + {id}, newest, newestTime)
  {
    newest, newestTime := best, bestTime;
    var node := Get(m, id);
    if children == [] && node.Some? && node.value.role != Tool {
      BestAfterLeaf(m, start, visited, best, bestTime, id);
      if bestTime == "" || TextLe(bestTime, node.value.createdAt) {
        newestTime := node.value.createdAt;
        newest := id;
      }
    } else {
      BestAfterOther(m, start, visited, best, bestTime, id);
    }
  }

  /** Every id the search can meet. */
  ghost function AllIds(msgs: seq<Message>, start: Id): set<Id> {
    {start} + set i | 0 <= i < |msgs| :: EffectiveId(msgs[i])
  }

  /** The frontier: what is visited or queued is reachable, and the children of what is visited are among it. */
  ghost predicate Explored(msgs: seq<Message>, start: Id, visited: set<Id>, queue: seq<Id>) {
    && (start in visited || start in queue)
    && (forall x | x in visited || x in queue :: x in AllIds(msgs, start) && Reachable(msgs, start, x))
    && (forall x, y | x in visited && IsChild(msgs, x, y) :: y in visited || y in queue)
  }

  lemma ExploredStep(msgs: seq<Message>, start: Id, visited: set<Id>, queue: seq<Id>, queue': seq<Id>)
    requires queue != [] && Explored(msgs, start, visited, queue)
    requires var id := queue[0];
             forall x :: x in queue' <==>
               x in queue[1..] || (id !in visited && IsChild(msgs, id, x) && x !in visited + {id})
    ensures Explored(msgs, start, visited + {queue[0]}, queue')
  {
    var id := queue[0];
    assert id in queue;
    forall x | x in queue ensures x == id || x in queue[1..] {}
    forall x | x in queue[1..] ensures x in queue {}
    forall x | IsChild(msgs, id, x) ensures x in AllIds(msgs, start) && Reachable(msgs, start, x) {
      var children := ChildrenOf(msgs, id);
      var i :| 0 <= i < |children| && EffectiveId(children[i]) == x;
      ChildIsMessage(msgs, id, children[i]);
      ReachesChild(msgs, start, id, x);
    }
  }

  lemma ExploredSkip(msgs: seq<Message>, start: Id, visited: set<Id>, queue: seq<Id>)
    requires queue != [] && Explored(msgs, start, visited, queue) && queue[0] in visited
    ensures Explored(msgs, start, visited, queue[1..])
  {
    ExploredStep(msgs, start, visited, queue, queue[1..]);
    assert visited + {queue[0]} == visited;
  }

  lemma ExploredAll(msgs: seq<Message>, start: Id, visited: set<Id>)
    requires Explored(msgs, start, visited, [])
    ensures forall x :: x in visited <==> Reachable(msgs, start, x)
  {
    forall x | Reachable(msgs, start, x) ensures x in visited {
      var path :| IsPathBetween(msgs, path, start, x);
      ClosedSetHoldsPath(msgs, visited, path);
    }
  }

  lemma VisitShrinks(msgs: seq<Message>, start: Id, visited: set<Id>, queue: seq<Id>)
    requires queue != [] && Explored(msgs, start, visited, queue) && queue[0] !in visited
    ensures |AllIds(msgs, start) - (visited + {queue[0]})| < |AllIds(msgs, start) - visited|
  {
    assert queue[0] in queue;
    ShrinkingSet(AllIds(msgs, start) - (visited + {queue[0]}), AllIds(msgs, start) - visited);
  }

  method FindNewestLeaf(m: MessageMap, start: Id) returns (newest: Id)
    ensures Get(m, start).None? ==> newest == start
    ensures Get(m, start).Some? ==> IsNewest(m, start, newest)
  {
    if Get(m, start).None? {
      return start;
    }
    var msgs := Values(m);
    var childMap := BuildChildMap(msgs);
    newest := start;
    var newestTime := TimeOf(m, start);
    var queue := [start];
    var visited: set<Id> := {};
    TextLeReflexive(newestTime);
    ReachesItself(msgs, start);
    while queue != []
      invariant Explored(msgs, start, visited, queue)
      invariant BestSoFar(m, start, visited, newest, newestTime)
      decreases |AllIds(msgs, start) - visited|, |queue|
    {
      var id := queue[0];
      if id in visited {
        ExploredSkip(msgs, start, visited, queue);
        queue := queue[1..];
        continue;
      }
      VisitShrinks(msgs, start, visited, queue);
      var children := if id in childMap then childMap[id] else [];
      newest, newestTime := Visit(m, children, id, newest, newestTime, start, visited);
      var grown := PushUnvisited(queue[1..], children, visited + {id});
      ExploredStep(msgs, start, visited, queue, grown);
      queue := grown;
      visited := visited + {id};
    }
    ExploredAll(msgs, start, visited);
  }

  lemma ShrinkingSet<T>(small: set<T>, big: set<T>)
    requires small < big
    ensures |small| < |big|
  {
    var x :| x in big && x !in small;
    var rest := big - {x};
    assert small <= rest;
    SubsetSize(small, rest);
  }

  lemma {:induction false} SubsetSize<T>(small: set<T>, big: set<T>)
    requires small <= big
    ensures |small| <= |big|
  {
    if small != {} {
      var x :| x in small;
      SubsetSize(small - {x}, big - {x});
    }
  }

  method PushUnvisited(queue: seq<Id>, children: seq<Message>, visited: set<Id>) returns (r: seq<Id>)
    ensures forall x :: x in r <==> x in queue || (HasId(children, x) && x !in visited)
  {
    r := queue;
    for i := 0 to |children|
      invariant forall x :: x in r <==> x in queue || (HasId(children[..i], x) && x !in visited)
    {
      var childId := EffectiveId(children[i]);
      forall x ensures HasId(children[..i + 1], x) <==> HasId(children[..i], x) || x == childId {
        if HasId(children[..i], x) {
          var j :| 0 <= j < i && EffectiveId(children[..i][j]) == x;
          assert children[..i + 1][j] == children[j];
        }
        assert children[..i + 1][i] == children[i];
        if HasId(children[..i + 1], x) {
          var j :| 0 <= j < i + 1 && EffectiveId(children[..i + 1][j]) == x;
          assert j < i ==> children[..i][j] == children[j];
        }
      }
      if childId !in visited {
        r := r + [childId];
      }
    }
    assert children[..|children|] == children;
  }

  lemma ChildIsMessage(msgs: seq<Message>, id: Id, child: Message)
    requires child in ChildrenOf(msgs, id)
    ensures child in msgs && child.role != Tool && child.parent == Some(id)
    ensures IsChild(msgs, id, EffectiveId(child))
  {
    var scanned := Scan(msgs, Some(id));
    SortKeepsMembers(Dedupe(scanned));
    DedupeKeepsFirsts(scanned);
    ScanIsSubsequence(msgs, Some(id));
    var i :| 0 <= i < |ChildrenOf(msgs, id)| && ChildrenOf(msgs, id)[i] == child;
  }

  /// Conversations whose children are younger than their parents

  /** Looking up the effective id of a message of the map finds that message. */
  ghost predicate FoundByEffectiveId(m: MessageMap) {
    forall i | 0 <= i < |m| :: Get(m, EffectiveId(m[i].message)) == Some(m[i].message)
  }

  /** No message is older than a message it answers. */
  ghost predicate ChildrenNotOlder(m: MessageMap) {
    forall i, j | 0 <= i < |m| && 0 <= j < |m| && m[j].message.parent == Some(m[i].key) ::
      TextLe(m[i].message.createdAt, m[j].message.createdAt)
  }

  /** Every message is younger than a message it answers. */
  ghost predicate ChildrenYounger(m: MessageMap) {
    forall i, j | 0 <= i < |m| && 0 <= j < |m| && m[j].message.parent == Some(m[i].key) ::
      !TextLe(m[j].message.createdAt, m[i].message.createdAt)
  }

  lemma ChildIsEntry(m: MessageMap, id: Id, child: Id)
    requires FoundByEffectiveId(m) && IsChild(Values(m), id, child)
    ensures Get(m, child).Some? && Get(m, child).value.role != Tool && Get(m, child).value.parent == Some(id)
  {
    var children := ChildrenOf(Values(m), id);
    var k :| 0 <= k < |children| && EffectiveId(children[k]) == child;
    ChildIsMessage(Values(m), id, children[k]);
    var i :| 0 <= i < |m| && m[i].message == children[k];
  }

  lemma ChildTimes(m: MessageMap, id: Id, child: Id)
    requires FoundByEffectiveId(m) && Get(m, id).Some? && IsChild(Values(m), id, child)
    ensures ChildrenNotOlder(m) ==> TextLe(TimeOf(m, id), TimeOf(m, child))
    ensures ChildrenYounger(m) ==> !TextLe(TimeOf(m, child), TimeOf(m, id))
  {
    ChildIsEntry(m, id, child);
    GetFindsEntry(m, id);
    GetFindsEntry(m, child);
    var i :| 0 <= i < |m| && m[i] == Entry(id, Get(m, id).value);
    var j :| 0 <= j < |m| && m[j] == Entry(child, Get(m, child).value);
  }

  lemma TailIsPath(msgs: seq<Message>, path: seq<Id>)
    requires IsPath(msgs, path) && |path| > 1
    ensures IsPath(msgs, path[1..]) && IsChild(msgs, path[0], path[1])
  {
    forall i | 0 <= i < |path[1..]| - 1 ensures IsChild(msgs, path[1..][i], path[1..][i + 1]) {
      assert IsChild(msgs, path[i + 1], path[i + 2]);
    }
  }

  lemma {:induction false} PathTimes(m: MessageMap, path: seq<Id>)
    requires FoundByEffectiveId(m) && ChildrenNotOlder(m)
    requires IsPath(Values(m), path) && Get(m, path[0]).Some?
    ensures TextLe(TimeOf(m, path[0]), TimeOf(m, path[|path| - 1]))
    decreases |path|
  {
    if |path| == 1 {
      TextLeReflexive(TimeOf(m, path[0]));
    } else {
      TailIsPath(Values(m), path);
      ChildIsEntry(m, path[0], path[1]);
      ChildTimes(m, path[0], path[1]);
      PathTimes(m, path[1..]);
      TextLeTransitive(TimeOf(m, path[0]), TimeOf(m, path[1]), TimeOf(m, path[|path| - 1]));
    }
  }

  /** If children are never older than their parents, the result is the newest reachable leaf, if there is any. */
  lemma NewestIsNewestLeaf(m: MessageMap, start: Id, newest: Id)
    requires FoundByEffectiveId(m) && ChildrenNotOlder(m)
    requires Get(m, start).Some? && IsNewest(m, start, newest)
    requires exists leaf :: ReachableLeaf(m, start, leaf)
    ensures ReachableLeaf(m, start, newest)
    ensures forall leaf | ReachableLeaf(m, start, leaf) :: TextLe(TimeOf(m, leaf), TimeOf(m, newest))
  {
    var leaf :| ReachableLeaf(m, start, leaf);
    var path :| IsPathBetween(Values(m), path, start, leaf);
    PathTimes(m, path);
    assert TextLe(TimeOf(m, start), TimeOf(m, leaf));
    ReachesItself(Values(m), start);
  }

  /** The messages of the map that are younger than `time`. */
  ghost function Younger(m: MessageMap, time: string): set<int> {
    set i | 0 <= i < |m| && !TextLe(m[i].message.createdAt, time)
  }

  /** If children are younger than their parents, there are no cycles and every walk ends in a leaf. */
  lemma {:induction false} LeafBelow(m: MessageMap, start: Id, id: Id)
    requires FoundByEffectiveId(m) && ChildrenYounger(m)
    requires Get(m, id).Some? && Get(m, id).value.role != Tool && Reachable(Values(m), start, id)
    ensures exists leaf :: ReachableLeaf(m, start, leaf)
    decreases |Younger(m, TimeOf(m, id))|
  {
    var children := ChildrenOf(Values(m), id);
    if children == [] {
      assert ReachableLeaf(m, start, id);
    } else {
      var child := EffectiveId(children[0]);
      ChildIsMessage(Values(m), id, children[0]);
      ChildIsEntry(m, id, child);
      ChildTimes(m, id, child);
      ReachesChild(Values(m), start, id, child);
      FewerYounger(m, id, child);
      LeafBelow(m, start, child);
    }
  }

  lemma FewerYounger(m: MessageMap, id: Id, child: Id)
    requires Get(m, child).Some? && !TextLe(TimeOf(m, child), TimeOf(m, id))
    ensures |Younger(m, TimeOf(m, child))| < |Younger(m, TimeOf(m, id))|
  {
    GetFindsEntry(m, child);
    var j :| 0 <= j < |m| && m[j] == Entry(child, Get(m, child).value);
    TextLeReflexive(TimeOf(m, child));
    TextLeTotal(TimeOf(m, child), TimeOf(m, id));
    forall i | i in Younger(m, TimeOf(m, child)) ensures i in Younger(m, TimeOf(m, id)) {
      if TextLe(m[i].message.createdAt, TimeOf(m, id)) {
        TextLeTransitive(m[i].message.createdAt, TimeOf(m, id), TimeOf(m, child));
      }
    }
    assert j in Younger(m, TimeOf(m, id)) && j !in Younger(m, TimeOf(m, child));
    ShrinkingSet(Younger(m, TimeOf(m, child)), Younger(m, TimeOf(m, id)));
  }

  /** In a conversation that only grows younger, the result is always the newest reachable leaf. */
  lemma NewestLeafOfTree(m: MessageMap, start: Id, newest: Id)
    requires FoundByEffectiveId(m) && ChildrenYounger(m)
    requires Get(m, start).Some? && Get(m, start).value.role != Tool && IsNewest(m, start, newest)
    ensures ReachableLeaf(m, start, newest)
    ensures forall leaf | ReachableLeaf(m, start, leaf) :: TextLe(TimeOf(m, leaf), TimeOf(m, newest))
  {
    ReachesItself(Values(m), start);
    LeafBelow(m, start, start);
    forall i, j | 0 <= i < |m| && 0 <= j < |m| && m[j].message.parent == Some(m[i].key)
      ensures TextLe(m[i].message.createdAt, m[j].message.createdAt)
    {
      TextLeTotal(m[i].message.createdAt, m[j].message.createdAt);
    }
    NewestIsNewestLeaf(m, start, newest);
  }
}
