/** The links list box: refresh, cancel and bulk relink over a sorted list of link records. */
module LinksDialog {
  import opened Common
  import opened LinkNames

  datatype LinkInfo = LinkInfo(link: nat, name: Text, marked: bool)

  ghost predicate IsOrder(leq: (Text, Text) -> bool) {
    && (forall a, b :: leq(a, b) || leq(b, a))
    && (forall a, b, c :: leq(a, b) && leq(b, c) ==> leq(a, c))
  }

  ghost predicate Sorted(leq: (Text, Text) -> bool, items: seq<LinkInfo>) {
    forall i, j :: 0 <= i < j < |items| ==> leq(items[i].name, items[j].name)
  }

  // A place where the list box may insert the item.
  ghost predicate Fits(leq: (Text, Text) -> bool, items: seq<LinkInfo>, item: LinkInfo, at: nat) {
    && at <= |items|
    && (forall i :: 0 <= i < at ==> leq(items[i].name, item.name))
    && (forall i :: at <= i < |items| ==> leq(item.name, items[i].name))
  }

  ghost predicate DistinctLinks(items: seq<LinkInfo>) {
    forall i, j :: 0 <= i < j < |items| ==> items[i].link != items[j].link
  }

  function Links(items: seq<LinkInfo>): set<nat> {
    set item | item in items :: item.link
  }

  function Inserted(items: seq<LinkInfo>, at: nat, item: LinkInfo): seq<LinkInfo>
    requires at <= |items|
  {
    items[..at] + [item] + items[at..]
  }

  function Deleted(items: seq<LinkInfo>, at: nat): seq<LinkInfo>
    requires at < |items|
  {
    items[..at] + items[at + 1..]
  }

  // What a refresh owes each record: a marked one takes the container's name for it.
  function Settle(sources: map<nat, Text>, item: LinkInfo): LinkInfo {
    if item.marked && item.link in sources then LinkInfo(item.link, sources[item.link], false) else item
  }

  function Settled(sources: map<nat, Text>, items: seq<LinkInfo>): multiset<LinkInfo> {
    if items == [] then multiset{} else multiset{Settle(sources, items[0])} + Settled(sources, items[1..])
  }

  function MarkedLinks(items: seq<LinkInfo>): multiset<nat> {
    if items == [] then multiset{}
    else Mark(items[0]) + MarkedLinks(items[1..])
  }

  function Mark(item: LinkInfo): multiset<nat> {
    if item.marked then multiset{item.link} else multiset{}
  }

  // The records of the given links, in list order.
  function Only(items: seq<LinkInfo>, links: set<nat>): seq<LinkInfo> {
    if items == [] then [] else (if items[0].link in links then [items[0]] else []) + Only(items[1..], links)
  }

  lemma BagAssoc<T>(a: multiset<T>, b: multiset<T>, c: multiset<T>)
    ensures a + (b + c) == (a + b) + c
  {
  }

  // Deleting behind the first record, one step down the list.
  lemma DeletedStep(items: seq<LinkInfo>, at: nat)
    requires 0 < at < |items|
    ensures items[1..][at - 1] == items[at]
    ensures Deleted(items, at) == [items[0]] + Deleted(items[1..], at - 1)
    ensures Deleted(items, at)[0] == items[0] && Deleted(items, at)[1..] == Deleted(items[1..], at - 1)
  {
    assert items == [items[0]] + items[1..];
  }

  lemma DeletedFirst(items: seq<LinkInfo>)
    requires items != []
    ensures Deleted(items, 0) == items[1..]
  {
  }

  lemma SettledUnfolds(sources: map<nat, Text>, items: seq<LinkInfo>)
    requires items != []
    ensures Settled(sources, items) == multiset{Settle(sources, items[0])} + Settled(sources, items[1..])
  {
  }

  lemma MarkedUnfolds(items: seq<LinkInfo>)
    requires items != []
    ensures MarkedLinks(items) == Mark(items[0]) + MarkedLinks(items[1..])
  {
  }

  lemma {:induction false} DeleteSettled(sources: map<nat, Text>, items: seq<LinkInfo>, at: nat)
    requires at < |items|
    ensures Settled(sources, items) == Settled(sources, Deleted(items, at)) + multiset{Settle(sources, items[at])}
  {
    hide Settled, Settle, Deleted;
    SettledUnfolds(sources, items);
    if at == 0 {
      DeletedFirst(items);
    } else {
      DeletedStep(items, at);
      DeleteSettled(sources, items[1..], at - 1);
      SettledUnfolds(sources, Deleted(items, at));
      BagAssoc(multiset{Settle(sources, items[0])}, Settled(sources, Deleted(items[1..], at - 1)),
               multiset{Settle(sources, items[at])});
    }
  }

  lemma {:induction false} DeleteMarked(items: seq<LinkInfo>, at: nat)
    requires at < |items|
    ensures MarkedLinks(items) == MarkedLinks(Deleted(items, at)) + Mark(items[at])
  {
    hide MarkedLinks, Mark, Deleted;
    MarkedUnfolds(items);
    if at == 0 {
      DeletedFirst(items);
    } else {
      DeletedStep(items, at);
      DeleteMarked(items[1..], at - 1);
      MarkedUnfolds(Deleted(items, at));
      BagAssoc(Mark(items[0]), MarkedLinks(Deleted(items[1..], at - 1)), Mark(items[at]));
    }
  }

  lemma {:induction false} DeleteOthers(items: seq<LinkInfo>, at: nat, links: set<nat>)
    requires at < |items| && items[at].link !in links
    ensures Only(Deleted(items, at), links) == Only(items, links)
  {
    if at == 0 {
      assert Deleted(items, at) == items[1..];
    } else {
      DeleteOthers(items[1..], at - 1, links);
      assert Deleted(items, at)[1..] == Deleted(items[1..], at - 1);
    }
  }

  lemma {:induction false} NothingMarked(items: seq<LinkInfo>)
    ensures MarkedLinks(items) == multiset{} <==> forall i :: 0 <= i < |items| ==> !items[i].marked
  {
    if items != [] {
      NothingMarked(items[1..]);
      assert forall i :: 1 <= i < |items| ==> items[i] == items[1..][i - 1];
    }
  }

  lemma InsertKeepsSorted(leq: (Text, Text) -> bool, items: seq<LinkInfo>, at: nat, item: LinkInfo)
    requires Sorted(leq, items) && Fits(leq, items, item, at)
    ensures Sorted(leq, Inserted(items, at, item))
  {
  }

  lemma DeleteKeepsSorted(leq: (Text, Text) -> bool, items: seq<LinkInfo>, at: nat)
    requires Sorted(leq, items) && at < |items|
    ensures Sorted(leq, Deleted(items, at))
  {
  }

  lemma DeletedLength(items: seq<LinkInfo>, at: nat)
    requires at < |items|
    ensures |Deleted(items, at)| == |items| - 1
  {
  }

  lemma InsertDelete(items: seq<LinkInfo>, at: nat, item: LinkInfo)
    requires at <= |items|
    ensures |Inserted(items, at, item)| == |items| + 1 && Inserted(items, at, item)[at] == item
    ensures Deleted(Inserted(items, at, item), at) == items
  {
  }

  // One step of the refresh: a marked record leaves and comes back settled.
  lemma MoveSettles(sources: map<nat, Text>, items: seq<LinkInfo>, from: nat, to: nat, others: set<nat>)
    requires from < |items| && to < |items| && items[from].marked && items[from].link in sources
    requires items[from].link !in others
    ensures var r := Inserted(Deleted(items, from), to, Settle(sources, items[from]));
      && Settled(sources, r) == Settled(sources, items)
      && MarkedLinks(r) + multiset{items[from].link} == MarkedLinks(items)
      && Only(r, others) == Only(items, others)
  {
    hide Settled, MarkedLinks, Only, Inserted, Deleted;
    var item, rest := Settle(sources, items[from]), Deleted(items, from);
    DeletedLength(items, from);
    var r := Inserted(rest, to, item);
    InsertDelete(rest, to, item);
    assert Settle(sources, item) == item && Mark(items[from]) == multiset{items[from].link};
    DeleteSettled(sources, items, from);
    DeleteSettled(sources, r, to);
    DeleteMarked(items, from);
    DeleteMarked(r, to);
    DeleteOthers(items, from, others);
    DeleteOthers(r, to, others);
  }

  lemma DeleteKeepsDistinct(items: seq<LinkInfo>, at: nat)
    requires DistinctLinks(items) && at < |items|
    ensures DistinctLinks(Deleted(items, at))
    ensures forall i :: 0 <= i < |Deleted(items, at)| ==> Deleted(items, at)[i].link != items[at].link
  {
    var rest := Deleted(items, at);
    assert forall i :: 0 <= i < at ==> rest[i] == items[i];
    assert forall i :: at <= i < |rest| ==> rest[i] == items[i + 1];
  }

  lemma InsertKeepsDistinct(items: seq<LinkInfo>, at: nat, item: LinkInfo)
    requires DistinctLinks(items) && at <= |items|
    requires forall i :: 0 <= i < |items| ==> items[i].link != item.link
    ensures DistinctLinks(Inserted(items, at, item))
  {
    var r := Inserted(items, at, item);
    assert forall i :: 0 <= i < at ==> r[i] == items[i];
    assert r[at] == item;
    assert forall i :: at < i < |r| ==> r[i] == items[i - 1];
  }

  lemma DeletedLinks(items: seq<LinkInfo>, at: nat)
    requires at < |items|
    ensures Links(items) == Links(Deleted(items, at)) + {items[at].link}
  {
    var rest := Deleted(items, at);
    assert items == items[..at] + [items[at]] + items[at + 1..];
    assert forall item :: item in items <==> item in rest || item == items[at];
  }

  lemma MoveKeepsLinks(items: seq<LinkInfo>, from: nat, to: nat, item: LinkInfo)
    requires from < |items| && to < |items| && item.link == items[from].link
    ensures Links(Inserted(Deleted(items, from), to, item)) == Links(items)
  {
    hide Links, Inserted, Deleted;
    DeletedLength(items, from);
    InsertDelete(Deleted(items, from), to, item);
    DeletedLinks(items, from);
    DeletedLinks(Inserted(Deleted(items, from), to, item), to);
  }

  lemma {:induction false} SettledUnmarked(sources: map<nat, Text>, items: seq<LinkInfo>)
    requires forall i :: 0 <= i < |items| ==> !items[i].marked
    ensures Settled(sources, items) == multiset(items)
  {
    if items != [] {
      SettledUnmarked(sources, items[1..]);
      assert items == [items[0]] + items[1..];
    }
  }

  lemma NothingSettled(sources: map<nat, Text>)
    ensures Settled(sources, []) == multiset{}
  {
  }

  lemma {:induction false} SettledMember(sources: map<nat, Text>, items: seq<LinkInfo>, item: LinkInfo)
    ensures item in Settled(sources, items) <==> exists i :: 0 <= i < |items| && item == Settle(sources, items[i])
  {
    hide Settled, Settle;
    if items != [] {
      SettledMember(sources, items[1..], item);
      SettledUnfolds(sources, items);
      if item == Settle(sources, items[0]) {
        assert exists i :: 0 <= i < |items| && item == Settle(sources, items[i]);
      } else if i :| 0 <= i < |items[1..]| && item == Settle(sources, items[1..][i]) {
        assert item == Settle(sources, items[i + 1]);
      } else {
        assert forall i :: 1 <= i < |items| ==> items[i] == items[1..][i - 1];
      }
    } else {
      NothingSettled(sources);
    }
  }

  ghost predicate ValidList(leq: (Text, Text) -> bool, sources: map<nat, Text>, items: seq<LinkInfo>) {
    && Sorted(leq, items) && DistinctLinks(items)
    && Links(items) <= sources.Keys
  }

  // A name the list shows is the container's, unless the record is marked for refresh.
  ghost predicate Coherent(sources: map<nat, Text>, items: seq<LinkInfo>) {
    forall i :: 0 <= i < |items| && !items[i].marked && items[i].link in sources ==>
      items[i].name == sources[items[i].link]
  }

  function UnmarkedLinks(items: seq<LinkInfo>): set<nat> {
    set item | item in items && !item.marked :: item.link
  }

  lemma SettledIsCoherent(sources: map<nat, Text>, before: seq<LinkInfo>, after: seq<LinkInfo>)
    requires Coherent(sources, before) && multiset(after) == Settled(sources, before)
    ensures Coherent(sources, after)
  {
    forall i | 0 <= i < |after| && !after[i].marked && after[i].link in sources
      ensures after[i].name == sources[after[i].link]
    {
      assert after[i] in multiset(after);
      SettledMember(sources, before, after[i]);
    }
  }

  // What holds between two restarts of a refresh that began with the list `was`.
  ghost predicate Partly(sources: map<nat, Text>, was: seq<LinkInfo>, items: seq<LinkInfo>) {
    && |items| == |was|
    && Settled(sources, items) == Settled(sources, was)
    && Only(items, UnmarkedLinks(was)) == Only(was, UnmarkedLinks(was))
    && NoneMarked(items, UnmarkedLinks(was))
  }

  ghost predicate NoneMarked(items: seq<LinkInfo>, links: set<nat>) {
    forall i :: 0 <= i < |items| && items[i].link in links ==> !items[i].marked
  }

  // The outcome of a whole refresh: every marked record settled, the others in their old order.
  ghost predicate Refreshed(sources: map<nat, Text>, was: seq<LinkInfo>, items: seq<LinkInfo>) {
    && MarkedLinks(items) == multiset{}
    && multiset(items) == Settled(sources, was)
    && Only(items, UnmarkedLinks(was)) == Only(was, UnmarkedLinks(was))
  }

  lemma StartsPartly(sources: map<nat, Text>, items: seq<LinkInfo>)
    requires DistinctLinks(items)
    ensures Partly(sources, items, items)
  {
    forall i | 0 <= i < |items| && items[i].link in UnmarkedLinks(items) ensures !items[i].marked {
      var other :| other in items && !other.marked && other.link == items[i].link;
      var j :| 0 <= j < |items| && items[j] == other;
    }
  }

  lemma MoveKeepsOthers(items: seq<LinkInfo>, from: nat, to: nat, item: LinkInfo, links: set<nat>)
    requires from < |items| && to < |items| && NoneMarked(items, links) && !item.marked
    ensures NoneMarked(Inserted(Deleted(items, from), to, item), links)
  {
  }

  lemma MoveKeeps(leq: (Text, Text) -> bool, sources: map<nat, Text>, was: seq<LinkInfo>, items: seq<LinkInfo>,
                  from: nat, to: nat)
    requires ValidList(leq, sources, items) && Partly(sources, was, items) && from < |items| && items[from].marked
    requires Fits(leq, Deleted(items, from), Settle(sources, items[from]), to)
    ensures var r := Inserted(Deleted(items, from), to, Settle(sources, items[from]));
      && ValidList(leq, sources, r) && Partly(sources, was, r)
      && MarkedLinks(items) == multiset{items[from].link} + MarkedLinks(r)
  {
    var item, others := Settle(sources, items[from]), UnmarkedLinks(was);
    assert items[from].link in Links(items);
    DeleteKeepsSorted(leq, items, from);
    MoveSettles(sources, items, from, to, others);
    MoveKeepsOthers(items, from, to, item, others);
    InsertKeepsSorted(leq, Deleted(items, from), to, item);
    DeleteKeepsDistinct(items, from);
    InsertKeepsDistinct(Deleted(items, from), to, item);
    MoveKeepsLinks(items, from, to, item);
  }

  lemma EndsSettled(sources: map<nat, Text>, was: seq<LinkInfo>, items: seq<LinkInfo>)
    requires Partly(sources, was, items) && MarkedLinks(items) == multiset{}
    ensures multiset(items) == Settled(sources, was)
    ensures Coherent(sources, was) ==> Coherent(sources, items)
  {
    NothingMarked(items);
    SettledUnmarked(sources, items);
    if Coherent(sources, was) {
      SettledIsCoherent(sources, was, items);
    }
  }

  function Flag(item: LinkInfo, failed: set<nat>): LinkInfo {
    if item.link in failed then item.(marked := true) else item
  }

  // The list without the cancelled links, with the ones the container refused marked.
  function Remaining(items: seq<LinkInfo>, gone: set<nat>, failed: set<nat>): seq<LinkInfo> {
    if items == [] then []
    else (if items[0].link in gone then [] else [Flag(items[0], failed)]) + Remaining(items[1..], gone, failed)
  }

  lemma NothingRemains(gone: set<nat>, failed: set<nat>)
    ensures Remaining([], gone, failed) == []
  {
  }

  lemma RemainingUnfolds(items: seq<LinkInfo>, gone: set<nat>, failed: set<nat>)
    requires items != []
    ensures Remaining(items, gone, failed)
         == (if items[0].link in gone then [] else [Flag(items[0], failed)]) + Remaining(items[1..], gone, failed)
  {
  }

  lemma {:induction false} RemainingTwice(items: seq<LinkInfo>, gone: set<nat>, failed: set<nat>,
                                          gone': set<nat>, failed': set<nat>)
    ensures Remaining(Remaining(items, gone, failed), gone', failed')
         == Remaining(items, gone + gone', failed + failed')
  {
    hide Remaining;
    if items != [] {
      RemainingTwice(items[1..], gone, failed, gone', failed');
      var r := Remaining(items, gone, failed);
      RemainingUnfolds(items, gone, failed);
      RemainingUnfolds(items, gone + gone', failed + failed');
      if items[0].link in gone {
        assert r == Remaining(items[1..], gone, failed);
      } else {
        RemainingUnfolds(r, gone', failed');
        assert r[0] == Flag(items[0], failed) && r[1..] == Remaining(items[1..], gone, failed);
        assert Flag(r[0], failed') == Flag(items[0], failed + failed');
      }
    } else {
      NothingRemains(gone, failed);
      NothingRemains(gone', failed');
      NothingRemains(gone + gone', failed + failed');
    }
  }

  lemma {:induction false} RemainingAll(items: seq<LinkInfo>)
    ensures Remaining(items, {}, {}) == items
  {
    if items != [] {
      RemainingAll(items[1..]);
    }
  }

  lemma {:induction false} RemainingUntouched(items: seq<LinkInfo>, gone: set<nat>, failed: set<nat>)
    requires Links(items) !! gone && Links(items) !! failed
    ensures Remaining(items, gone, failed) == items
  {
    if items != [] {
      assert items[0].link in Links(items) && Links(items[1..]) <= Links(items);
      RemainingUntouched(items[1..], gone, failed);
    }
  }

  lemma MarkedStep(items: seq<LinkInfo>, at: nat)
    requires 0 < at < |items|
    ensures items[1..][at - 1] == items[at]
    ensures items[at := items[at].(marked := true)]
         == [items[0]] + items[1..][at - 1 := items[at].(marked := true)]
  {
  }

  lemma RestDistinct(items: seq<LinkInfo>)
    requires items != [] && DistinctLinks(items)
    ensures DistinctLinks(items[1..]) && items[0].link !in Links(items[1..])
    ensures items[0 := items[0].(marked := true)] == [items[0].(marked := true)] + items[1..]
  {
    if item :| item in items[1..] && item.link == items[0].link {
      var i :| 0 <= i < |items[1..]| && items[1..][i] == item;
      assert items[0].link != items[i + 1].link;
    }
  }

  // Deleting one record, or marking one, is what Remaining says of its link.
  lemma {:induction false} RemainingOne(items: seq<LinkInfo>, at: nat)
    requires DistinctLinks(items) && at < |items|
    ensures Remaining(items, {items[at].link}, {}) == Deleted(items, at)
    ensures Remaining(items, {}, {items[at].link}) == items[at := items[at].(marked := true)]
  {
    hide Remaining, Deleted;
    var link := items[at].link;
    RemainingUnfolds(items, {link}, {});
    RemainingUnfolds(items, {}, {link});
    if at == 0 {
      RestDistinct(items);
      RemainingUntouched(items[1..], {link}, {});
      RemainingUntouched(items[1..], {}, {link});
      DeletedFirst(items);
    } else {
      DeletedStep(items, at);
      MarkedStep(items, at);
      assert items[0].link != link;
      RemainingOne(items[1..], at - 1);
    }
  }

  // From index `i` on, each entry is the position of its link.
  ghost predicate Tracks(items: seq<LinkInfo>, rgIndex: seq<int>, links: seq<nat>, i: nat) {
    && |rgIndex| == |links|
    && forall j :: i <= j < |links| ==> 0 <= rgIndex[j] < |items| && items[rgIndex[j]].link == links[j]
  }

  ghost predicate Distinct(links: seq<nat>) {
    forall i, j :: 0 <= i < j < |links| ==> links[i] != links[j]
  }

  function Shifted(index: int, deleted: int): int {
    if index > deleted then index - 1 else index
  }

  /** The fix-up after a deletion keeps every later entry on its own link. */
  lemma FixUpTracks(items: seq<LinkInfo>, before: seq<int>, after: seq<int>, links: seq<nat>, i: nat)
    requires Tracks(items, before, links, i) && Distinct(links) && i < |links| == |after|
    requires forall j :: i < j < |links| ==> after[j] == Shifted(before[j], before[i])
    ensures Tracks(Deleted(items, before[i]), after, links, i + 1)
  {
    forall j | i + 1 <= j < |links|
      ensures 0 <= after[j] < |items| - 1 && Deleted(items, before[i])[after[j]].link == links[j]
    {
      assert links[i] != links[j];
    }
  }

  lemma DeleteKeepsList(leq: (Text, Text) -> bool, sources: map<nat, Text>, items: seq<LinkInfo>, at: nat)
    requires ValidList(leq, sources, items) && at < |items|
    ensures ValidList(leq, sources - {items[at].link}, Deleted(items, at))
  {
    var rest := Deleted(items, at);
    assert forall i :: 0 <= i < |rest| ==> rest[i] == items[if i < at then i else i + 1];
    assert forall i :: 0 <= i < |rest| ==> rest[i].link != items[at].link && rest[i].link in Links(items);
    DeleteKeepsSorted(leq, items, at);
  }

  lemma MarkKeepsList(leq: (Text, Text) -> bool, sources: map<nat, Text>, items: seq<LinkInfo>, at: nat, mark: bool)
    requires ValidList(leq, sources, items) && at < |items|
    ensures ValidList(leq, sources, items[at := items[at].(marked := mark)])
  {
    var r := items[at := items[at].(marked := mark)];
    assert forall i :: 0 <= i < |r| ==> r[i].link == items[i].link && r[i].name == items[i].name;
    assert forall i :: 0 <= i < |r| ==> items[i].link in Links(items);
  }

  // The links the container cancelled, and the ones it refused, among those asked about.
  function Gone(asked: seq<nat>, cancels: set<nat>): set<nat> {
    if asked == [] then {}
    else Gone(asked[..|asked| - 1], cancels) + if asked[|asked| - 1] in cancels then {asked[|asked| - 1]} else {}
  }

  function Failed(asked: seq<nat>, cancels: set<nat>): set<nat> {
    if asked == [] then {}
    else Failed(asked[..|asked| - 1], cancels) + if asked[|asked| - 1] in cancels then {} else {asked[|asked| - 1]}
  }

  lemma {:induction false} GoneOrFailed(asked: seq<nat>, cancels: set<nat>)
    ensures Gone(asked, cancels) == set link | link in asked && link in cancels
    ensures Failed(asked, cancels) == set link | link in asked && link !in cancels
  {
    if asked != [] {
      var n := |asked| - 1;
      GoneOrFailed(asked[..n], cancels);
      assert asked == asked[..n] + [asked[n]];
    }
  }

  // The container's answer to the last request; there is none before the first question answered yes.
  function LastAnswer(asked: seq<nat>, cancels: set<nat>): Option<bool> {
    if asked == [] then None else Some(asked[|asked| - 1] in cancels)
  }

  lemma LastAsked(links: seq<nat>, i: nat, cancels: set<nat>)
    requires i < |links|
    ensures LastAnswer(links[..i + 1], cancels) == Some(links[i] in cancels)
  {
  }

  lemma AskOne(links: seq<nat>, i: nat, cancels: set<nat>)
    requires i < |links|
    ensures Gone(links[..i + 1], cancels) == Gone(links[..i], cancels) + if links[i] in cancels then {links[i]} else {}
    ensures Failed(links[..i + 1], cancels)
         == Failed(links[..i], cancels) + if links[i] in cancels then {} else {links[i]}
  {
    assert links[..i + 1][..i] == links[..i];
  }

  predicate AllYes(answers: seq<bool>, n: nat)
    requires n <= |answers|
  {
    n == 0 || (answers[n - 1] && AllYes(answers, n - 1))
  }

  // Every question up to `asked` was answered yes, and the next one, if there is one, no.
  predicate AskedUntilNo(answers: seq<bool>, asked: nat) {
    && asked <= |answers| && (forall i :: 0 <= i < asked ==> answers[i])
    && (asked < |answers| ==> !answers[asked])
  }

  lemma {:induction false} AllYesMeans(answers: seq<bool>, n: nat)
    requires n <= |answers|
    ensures AllYes(answers, n) <==> forall i :: 0 <= i < n ==> answers[i]
  {
    if n > 0 {
      AllYesMeans(answers, n - 1);
    }
  }

  // The list and the container after the first `asked` links were confirmed.
  ghost predicate Cancelled(was: seq<LinkInfo>, before: map<nat, Text>, items: seq<LinkInfo>, sources: map<nat, Text>,
                            asked: seq<nat>, cancels: set<nat>) {
    && sources == before - Gone(asked, cancels)
    && items == Remaining(was, Gone(asked, cancels), Failed(asked, cancels))
  }

  lemma CancelledNone(items: seq<LinkInfo>, sources: map<nat, Text>, links: seq<nat>, cancels: set<nat>)
    ensures Cancelled(items, sources, items, sources, links[..0], cancels) && Failed(links[..0], cancels) == {}
    ensures LastAnswer(links[..0], cancels) == None
  {
    RemainingAll(items);
    assert Gone(links[..0], cancels) == {} && Failed(links[..0], cancels) == {};
  }

  lemma CancelledOne(was: seq<LinkInfo>, before: map<nat, Text>, items: seq<LinkInfo>, sources: map<nat, Text>,
                     links: seq<nat>, i: nat, cancels: set<nat>)
    requires i < |links| && Cancelled(was, before, items, sources, links[..i], cancels)
    ensures var link := links[i];
      if link in cancels then
        Cancelled(was, before, Remaining(items, {link}, {}), sources - {link}, links[..i + 1], cancels)
        && Failed(links[..i + 1], cancels) == Failed(links[..i], cancels)
      else
        Cancelled(was, before, Remaining(items, {}, {link}), sources, links[..i + 1], cancels)
        && Failed(links[..i + 1], cancels) != {}
  {
    var link, gone, failed := links[i], Gone(links[..i], cancels), Failed(links[..i], cancels);
    AskOne(links, i, cancels);
    RemainingTwice(was, gone, failed, {link}, {});
    RemainingTwice(was, gone, failed, {}, {link});
    assert gone + {} == gone && failed + {} == failed;
    assert (before - gone) - {link} == before - (gone + {link});
  }

  predicate AnyAccepted(items: seq<LinkInfo>, n: nat, from: Text)
    requires n <= |items|
  {
    n > 0 && (Accepts(items[n - 1].name, from) || AnyAccepted(items, n - 1, from))
  }

  // The list after the bulk relink has looked at its first n records.
  function Remarked(items: seq<LinkInfo>, n: nat, from: Text): (r: seq<LinkInfo>)
    requires n <= |items|
    ensures |r| == |items|
  {
    if n == 0 then items
    else Remarked(items, n - 1, from)[n - 1 := items[n - 1].(marked := Accepts(items[n - 1].name, from))]
  }

  // SetLinkSource is tried with validation and, if that fails, without; `settable` holds what succeeds.
  predicate IsSet(settable: set<(nat, bool)>, link: nat) {
    (link, true) in settable || (link, false) in settable
  }

  // Each accepted link is set once with validation and, only if that fails, once without.
  function TriesOf(link: nat, settable: set<(nat, bool)>): seq<(nat, bool)> {
    if (link, true) in settable then [(link, true)] else [(link, true), (link, false)]
  }

  function Tries(items: seq<LinkInfo>, n: nat, from: Text, settable: set<(nat, bool)>): seq<(nat, bool)>
    requires n <= |items|
  {
    if n == 0 then []
    else Tries(items, n - 1, from, settable)
         + if Accepts(items[n - 1].name, from) then TriesOf(items[n - 1].link, settable) else []
  }

  function Relinked(sources: map<nat, Text>, items: seq<LinkInfo>, n: nat, from: Text, to: Text,
                    settable: set<(nat, bool)>): map<nat, Text>
    requires n <= |items|
  {
    if n == 0 then sources
    else
      var item, before := items[n - 1], Relinked(sources, items, n - 1, from, to, settable);
      if Accepts(item.name, from) && IsSet(settable, item.link) then before[item.link := Rewritten(item.name, from, to)]
      else before
  }

  lemma {:induction false} RemarkedAt(items: seq<LinkInfo>, n: nat, from: Text, k: nat)
    requires n <= |items| && k < |items|
    ensures Remarked(items, n, from)[k] == if k < n then items[k].(marked := Accepts(items[k].name, from)) else items[k]
  {
    if n > 0 {
      RemarkedAt(items, n - 1, from, k);
    }
  }

  /** The container afterwards: a link whose name the test accepts has the rewritten name, any other its own. */
  lemma {:induction false} RelinkedAt(sources: map<nat, Text>, items: seq<LinkInfo>, n: nat, from: Text, to: Text,
                                      settable: set<(nat, bool)>, k: nat)
    requires n <= |items| && DistinctLinks(items) && k < |items|
    requires Links(items) <= sources.Keys
    ensures var r, item := Relinked(sources, items, n, from, to, settable), items[k];
      && r.Keys == sources.Keys && item.link in r
      && r[item.link] == if k < n && Accepts(item.name, from)
                            && ((item.link, true) in settable || (item.link, false) in settable)
                         then Rewritten(item.name, from, to) else sources[item.link]
  {
    assert items[k].link in Links(items);
    if n > 0 {
      assert items[n - 1].link in Links(items);
      RelinkedAt(sources, items, n - 1, from, to, settable, k);
    }
  }

  lemma RemarkKeepsList(leq: (Text, Text) -> bool, sources: map<nat, Text>, items: seq<LinkInfo>, n: nat,
                        from: Text, to: Text, settable: set<(nat, bool)>)
    requires ValidList(leq, sources, items) && n <= |items|
    ensures ValidList(leq, Relinked(sources, items, n, from, to, settable), Remarked(items, n, from))
  {
    var r := Remarked(items, n, from);
    forall k | 0 <= k < |items|
      ensures r[k].link == items[k].link && r[k].name == items[k].name
      ensures r[k].link in Relinked(sources, items, n, from, to, settable)
    {
      RemarkedAt(items, n, from, k);
      RelinkedAt(sources, items, n, from, to, settable, k);
    }
  }

  /** After the bulk relink only records that are marked for refresh differ from the container. */
  lemma RemarkKeepsCoherent(sources: map<nat, Text>, items: seq<LinkInfo>, from: Text, to: Text,
                            settable: set<(nat, bool)>)
    requires Coherent(sources, items) && MarkedLinks(items) == multiset{}
    requires DistinctLinks(items) && Links(items) <= sources.Keys
    ensures Coherent(Relinked(sources, items, |items|, from, to, settable), Remarked(items, |items|, from))
  {
    var r := Remarked(items, |items|, from);
    NothingMarked(items);
    var after := Relinked(sources, items, |items|, from, to, settable);
    forall k | 0 <= k < |r| && !r[k].marked && r[k].link in after ensures r[k].name == after[r[k].link]
    {
      assert items[k].link in Links(items);
      RemarkedAt(items, |items|, from, k);
      RelinkedAt(sources, items, |items|, from, to, settable, k);
    }
  }

  lemma {:induction false} NoneRelinked(sources: map<nat, Text>, items: seq<LinkInfo>, n: nat, from: Text, to: Text,
                                        settable: set<(nat, bool)>)
    requires n <= |items| && !AnyAccepted(items, n, from)
    ensures Relinked(sources, items, n, from, to, settable) == sources
  {
    if n > 0 {
      NoneRelinked(sources, items, n - 1, from, to, settable);
    }
  }

  lemma NoneRemarked(items: seq<LinkInfo>, n: nat, from: Text)
    requires n <= |items| && !AnyAccepted(items, n, from)
    ensures n == |items| ==> MarkedLinks(Remarked(items, n, from)) == multiset{}
  {
    forall k | 0 <= k < n ensures !Remarked(items, n, from)[k].marked {
      RemarkedAt(items, n, from, k);
      AcceptedIsAny(items, n, from, k);
    }
    NothingMarked(Remarked(items, n, from));
  }

  lemma {:induction false} AcceptedIsAny(items: seq<LinkInfo>, n: nat, from: Text, k: nat)
    requires k < n <= |items|
    ensures Accepts(items[k].name, from) ==> AnyAccepted(items, n, from)
  {
    if k < n - 1 {
      AcceptedIsAny(items, n - 1, from, k);
    }
  }

  // Nothing waits for a refresh and every record shows the container's name.
  ghost predicate Current(sources: map<nat, Text>, items: seq<LinkInfo>) {
    MarkedLinks(items) == multiset{} && Coherent(sources, items)
  }

  // The list holds a current record for each of the links, and nothing else.
  ghost predicate Loaded(sources: map<nat, Text>, links: seq<nat>, items: seq<LinkInfo>) {
    && |items| == |links|
    && (forall i :: 0 <= i < |items| ==>
          && items[i].link in links && items[i].link in sources
          && items[i] == LinkInfo(items[i].link, sources[items[i].link], false))
    && forall l :: l in links ==> exists i :: 0 <= i < |items| && items[i].link == l
  }

  lemma LoadOne(sources: map<nat, Text>, links: seq<nat>, items: seq<LinkInfo>, link: nat, at: nat)
    requires Loaded(sources, links, items) && DistinctLinks(items) && link !in links && link in sources && at <= |items|
    ensures var r := Inserted(items, at, LinkInfo(link, sources[link], false));
      Loaded(sources, links + [link], r) && DistinctLinks(r)
  {
    var r := Inserted(items, at, LinkInfo(link, sources[link], false));
    InsertKeepsDistinct(items, at, LinkInfo(link, sources[link], false));
    assert r[at].link == link;
    forall l | l in links + [link] ensures exists i :: 0 <= i < |r| && r[i].link == l {
      if l in links {
        var i :| 0 <= i < |items| && items[i].link == l;
        assert items[i] == r[if i < at then i else i + 1];
      }
    }
    forall i | 0 <= i < |r|
      ensures r[i].link in links + [link] && r[i].link in sources
      ensures r[i] == LinkInfo(r[i].link, sources[r[i].link], false)
    {
      assert i != at ==> r[i] == items[if i < at then i else i - 1];
    }
  }

  lemma LoadedIsValid(leq: (Text, Text) -> bool, sources: map<nat, Text>, links: seq<nat>, items: seq<LinkInfo>)
    requires Loaded(sources, links, items) && DistinctLinks(items) && Sorted(leq, items)
    ensures ValidList(leq, sources, items) && Current(sources, items)
  {
    NothingMarked(items);
  }

  class LinksDialog {
    const leq: (Text, Text) -> bool
    var items: seq<LinkInfo>
    // The link container: the name of each link's source.
    var sources: map<nat, Text>
    // The links whose records were read again from the container.
    ghost var refreshed: multiset<nat>
    // The calls of SetLinkSource: the link, and whether with validation.
    ghost var tried: seq<(nat, bool)>

    ghost predicate Valid()
      reads this
    {
      IsOrder(leq) && ValidList(leq, sources, items)
    }

    constructor (leq: (Text, Text) -> bool, sources: map<nat, Text>)
      requires IsOrder(leq)
      ensures Valid() && items == [] && this.leq == leq && this.sources == sources && refreshed == multiset{}
    {
      this.leq, this.sources, this.items, this.refreshed, this.tried := leq, sources, [], multiset{}, [];
    }

    /** The links that the container enumerates are loaded, one current record each, into a sorted list.
        `records` is the number of records there is memory for. */
    method LoadLinkLB(links: seq<nat>, records: nat) returns (cLinks: int)
      requires Valid() && items == [] && Distinct(links) && (forall l :: l in links ==> l in sources)
      modifies `items, `refreshed
      ensures Valid() && Current(sources, items)
      ensures cLinks == if |links| <= records then |links| else -1
      ensures Loaded(sources, links[..Min(|links|, records)], items)
    {
      var n := 0;
      while n < |links| && n < records
        invariant n <= |links| && n <= records
        invariant Sorted(leq, items) && DistinctLinks(items) && Loaded(sources, links[..n], items)
      {
        var link := links[n];
        ghost var before := items;
        var nIndex := AddLinkLBItem(LinkInfo(link, [], false));
        assert links[..n + 1] == links[..n] + [link];
        LoadOne(sources, links[..n], before, link, nIndex);
        InsertKeepsSorted(leq, before, nIndex, LinkInfo(link, sources[link], false));
        n := n + 1;
      }
      LoadedIsValid(leq, sources, links[..n], items);
      cLinks := if n < |links| then -1 else n;
    }

    method AddLinkLBItem(item: LinkInfo) returns (at: nat)
      requires IsOrder(leq) && Sorted(leq, items) && item.link in sources
      modifies `items, `refreshed
      ensures Fits(leq, old(items), item.(name := sources[item.link]), at)
      ensures items == Inserted(old(items), at, item.(name := sources[item.link]))
      ensures refreshed == old(refreshed) + multiset{item.link}
    {
      var read := item.(name := sources[item.link]);
      at := 0;
      while at < |items| && !leq(read.name, items[at].name)
        invariant at <= |items|
        invariant forall i :: 0 <= i < at ==> leq(items[i].name, read.name)
      {
        at := at + 1;
      }
      items := Inserted(items, at, read);
      refreshed := refreshed + multiset{item.link};
    }

    method FirstMarked() returns (index: nat)
      ensures index <= |items|
      ensures index < |items| ==> items[index].marked && forall i :: 0 <= i < index ==> !items[i].marked
      ensures index == |items| ==> MarkedLinks(items) == multiset{}
    {
      index := 0;
      while index < |items| && !items[index].marked
        invariant index <= |items| && forall i :: 0 <= i < index ==> !items[i].marked
      {
        index := index + 1;
      }
      NothingMarked(items);
    }

    method RefreshItem(index: nat, ghost was: seq<LinkInfo>, ghost total: multiset<nat>)
      requires Valid() && index < |items| && items[index].marked && Partly(sources, was, items)
      requires refreshed + MarkedLinks(items) == total
      modifies `items, `refreshed
      ensures Valid() && Partly(sources, was, items)
      ensures refreshed + MarkedLinks(items) == total
      ensures |MarkedLinks(items)| < |MarkedLinks(old(items))|
    {
      ghost var before := items;
      var item := items[index].(marked := false);
      items := Deleted(items, index);
      DeleteKeepsSorted(leq, before, index);
      var at := AddLinkLBItem(item);
      MoveKeeps(leq, sources, was, before, index, at);
      BagAssoc(old(refreshed), multiset{item.link}, MarkedLinks(items));
    }

    /** Every marked record is read again exactly once and moved to its place; the others keep their order. */
    method RefreshLinkLB()
      requires Valid()
      modifies `items, `refreshed
      ensures Valid() && |items| == |old(items)|
      ensures Refreshed(sources, old(items), items)
      ensures refreshed == old(refreshed) + MarkedLinks(old(items))
      ensures Coherent(sources, old(items)) ==> Coherent(sources, items)
    {
      ghost var was, total := items, refreshed + MarkedLinks(items);
      var stop := false;
      StartsPartly(sources, was);
      while !stop
        invariant Valid() && Partly(sources, was, items)
        invariant refreshed + MarkedLinks(items) == total
        invariant stop ==> MarkedLinks(items) == multiset{}
        decreases |MarkedLinks(items)|, if stop then 0 else 1
      {
        stop := true;
        var index := FirstMarked();
        if index < |items| {
          RefreshItem(index, was, total);
          stop := false;
        }
      }
      EndsSettled(sources, was, items);
    }

    // The fix-up of the later indices after the deletion of the record at rgIndex[i].
    static method FixUp(rgIndex: array<int>, i: nat)
      requires i < rgIndex.Length
      modifies rgIndex
      ensures forall j :: 0 <= j <= i ==> rgIndex[j] == old(rgIndex[j])
      ensures forall j :: i < j < rgIndex.Length ==> rgIndex[j] == Shifted(old(rgIndex[j]), old(rgIndex[i]))
    {
      for i2 := i + 1 to rgIndex.Length
        invariant forall j :: 0 <= j <= i || i2 <= j < rgIndex.Length ==> rgIndex[j] == old(rgIndex[j])
        invariant forall j :: i < j < i2 ==> rgIndex[j] == Shifted(old(rgIndex[j]), old(rgIndex[i]))
      {
        if rgIndex[i2] > rgIndex[i] {
          rgIndex[i2] := rgIndex[i2] - 1;
        }
      }
    }

    // One confirmed link: deleted from the list if the container cancels it, marked if it does not.
    method CancelAt(rgIndex: array<int>, i: nat, cancels: set<nat>, ghost links: seq<nat>,
                    ghost was: seq<LinkInfo>, ghost before: map<nat, Text>)
      returns (cancelled: bool)
      requires Valid() && i < rgIndex.Length && Distinct(links) && Tracks(items, rgIndex[..], links, i)
      requires Cancelled(was, before, items, sources, links[..i], cancels)
      modifies `items, `sources, rgIndex
      ensures Valid() && Tracks(items, rgIndex[..], links, i + 1)
      ensures Cancelled(was, before, items, sources, links[..i + 1], cancels)
      ensures cancelled <==> links[i] in cancels
      ensures Failed(links[..i + 1], cancels) == {} <==> Failed(links[..i], cancels) == {} && cancelled
    {
      ghost var indices := rgIndex[..];
      var at := rgIndex[i];
      RemainingOne(items, at);
      CancelledOne(was, before, items, sources, links, i, cancels);
      cancelled := items[at].link in cancels;
      if cancelled {
        DeleteKeepsList(leq, sources, items, at);
        sources := sources - {items[at].link};
        items := Deleted(items, at);
        FixUp(rgIndex, i);
        FixUpTracks(old(items), indices, rgIndex[..], links, i);
      } else {
        MarkKeepsList(leq, sources, items, at, true);
        items := items[at := items[at].(marked := true)];
      }
    }

    // The questions and their effects, up to the first answer no.
    method CancelAll(rgIndex: array<int>, ghost links: seq<nat>, answers: seq<bool>, cancels: set<nat>)
      returns (result: Option<bool>, bUpdate: bool, ghost asked: nat)
      requires Valid() && Distinct(links) && Tracks(items, rgIndex[..], links, 0)
      requires |answers| == |links|
      modifies `items, `sources, rgIndex
      ensures Valid()
      ensures AskedUntilNo(answers, asked)
      ensures Cancelled(old(items), old(sources), items, sources, links[..asked], cancels)
      ensures bUpdate <==> Failed(links[..asked], cancels) != {}
      ensures result == LastAnswer(links[..asked], cancels)
    {
      assert rgIndex.Length == |links|;
      hide Cancelled, Tracks, ValidList, IsOrder, Gone, Failed, LastAnswer;
      result, bUpdate := None, false;
      CancelledNone(items, sources, links, cancels);
      var i := 0;
      while i < rgIndex.Length && answers[i]
        invariant i <= rgIndex.Length && AllYes(answers, i)
        invariant Valid() && Tracks(items, rgIndex[..], links, i)
        invariant Cancelled(old(items), old(sources), items, sources, links[..i], cancels)
        invariant bUpdate <==> Failed(links[..i], cancels) != {}
        invariant result == LastAnswer(links[..i], cancels)
      {
        var cancelled := CancelAt(rgIndex, i, cancels, links, old(items), old(sources));
        LastAsked(links, i, cancels);
        result, bUpdate := Some(cancelled), bUpdate || !cancelled;
        i := i + 1;
      }
      AllYesMeans(answers, i);
      asked := i;
    }

    /** The selected links are cancelled one by one, each after its own question; `asked` counts the
        questions answered yes. The result is undefined when the first answer was no. */
    method CancelLink(rgIndex: array<int>, ghost links: seq<nat>, answers: seq<bool>, cancels: set<nat>)
      returns (result: Option<bool>, ghost asked: nat)
      requires Valid() && Distinct(links) && Tracks(items, rgIndex[..], links, 0)
      requires |answers| == |links|
      modifies this, rgIndex
      ensures Valid()
      ensures AskedUntilNo(answers, asked)
      ensures sources == old(sources) - Gone(links[..asked], cancels)
      ensures Failed(links[..asked], cancels) == {} ==>
        items == Remaining(old(items), Gone(links[..asked], cancels), {})
      ensures Failed(links[..asked], cancels) != {} ==>
        Refreshed(sources, Remaining(old(items), Gone(links[..asked], cancels), Failed(links[..asked], cancels)), items)
      ensures |links| == 0 ==> result == Some(true)
      ensures |links| > 0 ==> (result.Some? <==> asked > 0)
      ensures asked > 0 ==> (result.value <==> links[asked - 1] in cancels)
    {
      if rgIndex.Length == 0 {
        CancelledNone(items, sources, links, cancels);
        return Some(true), 0;
      }
      var bUpdate;
      result, bUpdate, asked := CancelAll(rgIndex, links, answers, cancels);
      if asked > 0 { LastAsked(links, asked - 1, cancels); }
      if bUpdate {
        RefreshLinkLB();
      }
    }

    method SetLinkSource(link: nat, name: Text, validate: bool, settable: set<(nat, bool)>) returns (ok: bool)
      modifies `sources, `tried
      ensures ok <==> (link, validate) in settable
      ensures sources == if ok then old(sources)[link := name] else old(sources)
      ensures tried == old(tried) + [(link, validate)]
    {
      tried := tried + [(link, validate)];
      ok := (link, validate) in settable;
      if ok {
        sources := sources[link := name];
      }
    }

    // One record: unmarked, and relinked and marked again if its name starts with the prefix.
    method Relink(index: nat, from: Text, to: Text, settable: set<(nat, bool)>)
      requires index < |items| && Accepts(items[index].name, from)
      modifies `items, `sources, `tried
      ensures tried == old(tried) + TriesOf(old(items)[index].link, settable)
      ensures items == old(items)[index := old(items[index]).(marked := true)]
      ensures sources == if IsSet(settable, old(items[index]).link)
                         then old(sources)[old(items[index]).link := Rewritten(old(items[index]).name, from, to)]
                         else old(sources)
    {
      var item := items[index];
      var szTmp := Rewritten(item.name, from, to);
      var ok := SetLinkSource(item.link, szTmp, true, settable);
      if !ok {
        ok := SetLinkSource(item.link, szTmp, false, settable);
      }
      items := items[index := item.(marked := true)];
    }

    // The loop over the list; it stops at the first accepted name when the user does not agree.
    method RelinkAll(from: Text, to: Text, yes: bool, settable: set<(nat, bool)>) returns (bFound: bool, n: nat)
      requires Valid()
      modifies `items, `sources, `tried
      ensures n <= |old(items)| && (n < |old(items)| ==> !yes && Accepts(old(items)[n].name, from))
      ensures tried == old(tried) + Tries(old(items), n, from, settable)
      ensures bFound <==> AnyAccepted(old(items), n, from)
      ensures bFound ==> yes && n == |old(items)|
      ensures items == if n < |old(items)| then Remarked(old(items), n, from)[n := old(items)[n].(marked := false)]
                       else Remarked(old(items), n, from)
      ensures sources == Relinked(old(sources), old(items), n, from, to, settable)
    {
      bFound, n := false, 0;
      while n < |items|
        invariant n <= |items| == |old(items)| && items == Remarked(old(items), n, from)
        invariant sources == Relinked(old(sources), old(items), n, from, to, settable)
        invariant tried == old(tried) + Tries(old(items), n, from, settable)
        invariant bFound <==> AnyAccepted(old(items), n, from)
        invariant bFound ==> yes
      {
        RemarkedAt(old(items), n, from, n);
        items := items[n := items[n].(marked := false)];
        if Accepts(items[n].name, from) {
          if !bFound {
            if !yes {
              return;
            }
            bFound := true;
          }
          Relink(n, from, to, settable);
        }
        n := n + 1;
      }
    }

    /** Every link whose name starts with the prefix gets the rewritten name, unless the user declines:
        then the loop stops at the first such record, `n`, and the container is untouched. */
    method ChangeAllLinks(from: Text, to: Text, yes: bool, settable: set<(nat, bool)>) returns (ghost n: nat)
      requires Valid()
      modifies this
      ensures Valid() && n <= |old(items)|
      ensures tried == old(tried) + Tries(old(items), n, from, settable)
      ensures n < |old(items)| ==>
        && !yes && !AnyAccepted(old(items), n, from) && Accepts(old(items)[n].name, from)
        && sources == old(sources)
        && items == Remarked(old(items), n, from)[n := old(items)[n].(marked := false)]
      ensures n == |old(items)| ==> sources == Relinked(old(sources), old(items), n, from, to, settable)
      ensures n == |old(items)| && !AnyAccepted(old(items), n, from) ==>
        sources == old(sources) && items == Remarked(old(items), n, from)
      ensures n == |old(items)| && AnyAccepted(old(items), n, from) ==>
        yes && Refreshed(sources, Remarked(old(items), n, from), items)
      ensures Current(old(sources), old(items)) && n == |old(items)| ==> Current(sources, items)
    {
      hide IsOrder, Sorted, DistinctLinks, Coherent, Settled, MarkedLinks, Only, Tries;
      hide Relinked, Remarked, Accepts, AnyAccepted;
      var bFound, last := RelinkAll(from, to, yes, settable);
      n := last;
      RemarkKeepsList(leq, old(sources), old(items), n, from, to, settable);
      if n < |items| {
        RemarkedAt(old(items), n, from, n);
        MarkKeepsList(leq, sources, Remarked(old(items), n, from), n, false);
      } else if Current(old(sources), old(items)) {
        RemarkKeepsCoherent(old(sources), old(items), from, to, settable);
      }
      if bFound {
        RefreshLinkLB();
      } else {
        NoneRelinked(old(sources), old(items), n, from, to, settable);
        NoneRemarked(old(items), n, from);
      }
    }
  }
}
