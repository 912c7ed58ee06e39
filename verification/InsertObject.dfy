/** The Insert Object dialog's use of the string cache, and the coherence of every replay. */
module InsertObject {
  import opened Common
  import opened PackedStrings
  import opened ClassRegistry
  import opened StringCache

  // What the system answers during one fill, and the changes that land between its steps: any number
  // of them before each enumeration call.
  datatype Weather = Weather(changes: seq<seq<Change>>, rearm: bool, memory: bool, keyOpened: bool,
                             tableMemory: bool, blockMemory: bool)

  // One replay of the cache: the strings listed, the registry and the request at that moment, and
  // the list, the registry and the request of the fill that loaded the cache. `steady` says that no unwatched
  // part of the registry changed while that fill was running.
  datatype Replay = Replay(listed: seq<Text>, view: View, request: Request,
                           filledList: seq<Text>, filledView: View, filledRequest: Request, steady: bool)

  // A replay lists what the fill listed, for the same list type and verify option, and nothing
  // in the watched part of the registry has changed since.
  predicate Coherent(r: Replay) {
    && r.view.clsids == r.filledView.clsids
    && r.request == r.filledRequest.(excluded := r.request.excluded)
    && r.listed == r.filledList && (r.steady ==> r.filledList == Scan(r.filledView, r.filledRequest))
  }

  predicate AllCoherent(rs: seq<Replay>) {
    rs == [] || (Coherent(rs[|rs| - 1]) && AllCoherent(rs[..|rs| - 1]))
  }

  lemma {:induction false} AllCoherentMeans(rs: seq<Replay>)
    ensures AllCoherent(rs) <==> forall i :: 0 <= i < |rs| ==> Coherent(rs[i])
  {
    if rs != [] {
      AllCoherentMeans(rs[..|rs| - 1]);
    }
  }

  lemma OneMoreReplay(rs: seq<Replay>, r: Replay)
    requires AllCoherent(rs) && Coherent(r)
    ensures AllCoherent(rs + [r])
  {
    assert (rs + [r])[..|rs|] == rs;
  }

  // Nothing that the watch or the call parameters miss has changed since the fill.
  predicate UnwatchedUnchanged(r: Replay) {
    r.steady && r.view.progIds == r.filledView.progIds && r.view.files == r.filledView.files
    && r.request.excluded == r.filledRequest.excluded
  }

  /** A coherent replay lists exactly what a fresh scan would, unless an unwatched input changed. */
  lemma ReplayIsFreshScan(r: Replay)
    requires Coherent(r) && UnwatchedUnchanged(r)
    ensures r.listed == Scan(r.view, r.request)
  {
    assert r.view == r.filledView && r.request == r.filledRequest;
  }

  // A class identifier of zeros with the given last digit.
  function Guid(last: TChar): (g: Text)
    requires 0x30 <= last <= 0x39
    ensures IsGuidText(g) && IsText(g) && Fold(g) == g && g[36] == last
  {
    seq(38, i requires 0 <= i < 38 =>
      if i == 0 then 0x7B else if i == 37 then 0x7D else if i in {9, 14, 19, 24} then 0x2D
      else if i == 36 then last else 0x30)
  }

  function ZeroGuid(): Text {
    Guid(0x30)
  }

  // One insertable class named "a".
  function OneClass(): View {
    View([ProgId([0x61], false, true, Some(ZeroGuid()), None, Some([0x61]), None)],
         map[ZeroGuid() := ClsidKey(false, true, None, None, None, None, Some([0x61]))], {})
  }

  lemma ScanOneClass(excluded: set<Text>)
    ensures Scan(OneClass(), Request(excluded, false, false)) ==
            if ZeroGuid() in excluded then [] else [OneEntry()]
  {
    var v, req := OneClass(), Request(excluded, false, false);
    assert v.clsids[ZeroGuid()].title == Some([0x61]);
    assert Candidate(v, v.progIds[0], req) == Some(Entry([0x61], ZeroGuid()));
    assert ScanTo(v, 0, req) == [];
  }

  // The one string that this class is listed as.
  function OneEntry(): Text {
    [0x61] + [TAB] + ZeroGuid()
  }

  lemma OneClassLists(excluded: set<Text>)
    ensures var l := Scan(OneClass(), Request(excluded, false, false));
      && (if ZeroGuid() in excluded then l == [] else l == [OneEntry()])
      && |Pack(l)| <= MAX_BLOCK
    ensures Scan(OneClass().(progIds := []), Request(excluded, false, false)) == []
  {
    ScanOneClass(excluded);
    PackSnoc([], OneEntry());
    assert [] + [OneEntry()] == [OneEntry()] && Pack([]) == [];
  }

  // Everything granted, and nothing changes during the fill.
  function FairWeather(): Weather {
    Weather([], true, true, true, true, true)
  }

  function Changed(v: View, c: Change): View {
    match c
    case Quiet => v
    case ChangeClsids(m) => v.(clsids := m)
    case ChangeRest(p, f) => v.(progIds := p, files := f)
  }

  function ChangedBy(v: View, cs: seq<Change>): View {
    if cs == [] then v else Changed(ChangedBy(v, cs[..|cs| - 1]), cs[|cs| - 1])
  }

  // The registry at the n-th enumeration call of a scan, counted from 1.
  function ViewAt(v: View, changes: seq<seq<Change>>, n: nat): View {
    if n == 0 then v
    else var u := ViewAt(v, changes, n - 1); if n - 1 < |changes| then ChangedBy(u, changes[n - 1]) else u
  }

  // What n calls list when each finds the registry as it is at that moment.
  function Swept(v: View, changes: seq<seq<Change>>, n: nat, req: Request): seq<Text> {
    if n == 0 then []
    else
      var u, items := ViewAt(v, changes, n), Swept(v, changes, n - 1, req);
      if n - 1 < |u.progIds| then AddKey(items, Candidate(u, u.progIds[n - 1], req), req) else items
  }

  // The cache and its event at the moment a fill begins.
  datatype Before = Before(usable: bool, contents: seq<Text>, signaled: bool)

  predicate Replays(b: Before) {
    b.usable && b.contents != [] && !b.signaled
  }

  predicate Granted(w: Weather) {
    w.memory && w.keyOpened && w.tableMemory && w.blockMemory
  }

  // The two options that show a list.
  predicate IsList(option: Source) {
    option == CreateNew || option == CreateControl
  }

  predicate OtherType(a: Source, b: Source) {
    IsList(a) && IsList(b) && a != b
  }

  lemma PackGrows(items: seq<Text>, e: Option<Entry>, req: Request)
    ensures |Pack(items)| <= |Pack(AddKey(items, e, req))|
  {
    if AddKey(items, e, req) != items {
      PackSnoc(items, e.value.title + [TAB] + e.value.id);
    }
  }

  function AsSet(l: seq<Text>): set<Text> {
    set t | t in l
  }

  class Dialog {
    const cache: StringCache
    const reg: Registry
    var oldListType: Source  // g_dwOldListType
    var isOpen: bool
    var flags: Flags         // lpIO->dwFlags
    var exclude: seq<Text>   // lpClsidExclude, each identifier in lower case
    var objectListFilled: bool
    var controlListFilled: bool
    var controlListActive: bool
    var list: seq<Text>      // what the fill lists, in the order of insertion
    var objectList: seq<Text>  // the two list boxes
    var controlList: seq<Text>

    ghost var filledList: seq<Text>
    ghost var filledView: View
    ghost var filledRequest: Request
    ghost var clsidMark: nat
    ghost var restMark: nat
    ghost var steady: bool
    ghost var replays: seq<Replay>

    ghost predicate CacheInv()
      reads this`oldListType, this`filledList, this`filledView, this`filledRequest
      reads this`clsidMark, this`restMark, this`steady
      reads cache, cache.strings, cache.offsets, reg
    {
      && cache.Valid()
      && clsidMark <= reg.clsidChanges && restMark <= reg.restChanges
      && (cache.ok && !reg.signaled ==> reg.armed)
      && (cache.ok && cache.contents != [] ==>
            && IsList(oldListType) && cache.contents == filledList
            && filledRequest.controls == (oldListType == CreateControl)
            && cache.flagsPrev.Some? && cache.flagsPrev.value.verify == filledRequest.verify
            && (!reg.signaled ==> clsidMark == reg.clsidChanges)
            && (clsidMark == reg.clsidChanges ==> filledView.clsids == reg.view.clsids)
            && (clsidMark == reg.clsidChanges && steady ==> filledList == Scan(filledView, filledRequest)))
    }

    ghost function Now(): Before
      reads cache, reg
    {
      Before(cache.ok, cache.contents, reg.signaled)
    }

    // What a fill for the option will find: a cache loaded for the other list type is emptied first.
    ghost function NowFor(option: Source): Before
      reads this`oldListType, cache, reg
    {
      if OtherType(oldListType, option) then Now().(contents := []) else Now()
    }

    // The same for a new call, which empties the cache unless its flags and the number of exclusions repeat.
    ghost function NowForCall(callFlags: Flags, excluded: nat): Before
      reads this`oldListType, cache, reg
    {
      if cache.flagsPrev == Some(callFlags) && cache.excludePrev == excluded then NowFor(callFlags.select)
      else Now().(contents := [])
    }

    ghost function NewReplay(): Replay
      reads this`list, this`flags, this`exclude, this`filledList, this`filledView, this`filledRequest, this`steady, reg
    {
      Replay(list, reg.view, RequestNow(), filledList, filledView, filledRequest, steady)
    }

    predicate ListFilled(option: Source)
      reads this`controlListFilled, this`objectListFilled
    {
      if option == CreateControl then controlListFilled else objectListFilled
    }

    function Box(option: Source): seq<Text>
      reads this`controlList, this`objectList
    {
      if option == CreateControl then controlList else objectList
    }

    // A list type that is selected is listed.
    ghost predicate ShownIsFilled()
      reads this`isOpen, this`flags, this`controlListFilled, this`objectListFilled
    {
      isOpen && IsList(flags.select) ==> ListFilled(flags.select)
    }

    // What a fill that began with `b` leaves: the list box, the cache and the event.
    ghost predicate Filled(b: Before, w: Weather)
      reads this`list, this`flags, this`exclude, cache, reg
    {
      if Replays(b) then list == b.contents && cache.contents == b.contents && cache.ok && !reg.signaled
      else if !w.memory || !w.keyOpened then list == [] && (cache.ok ==> b.usable && cache.contents == [])
      else
        && (cache.ok ==> b.usable && cache.contents == list)
        && (b.usable && Granted(w) && (b.signaled && b.contents != [] ==> w.rearm) && |Pack(list)| <= MAX_BLOCK ==>
              cache.ok)
        && (w.changes == [] ==>
              && list == Scan(reg.view, RequestNow())
              && (b.usable ==> reg.signaled == (b.signaled && b.contents == [])))
    }

    // Good enough for a fill, which flushes the cache first: the contents may be out of date.
    ghost predicate ReadyToFill()
      reads this, cache, cache.strings, cache.offsets, reg
    {
      && cache.Valid() && DialogInv()
      && clsidMark <= reg.clsidChanges && restMark <= reg.restChanges
      && (cache.ok && !reg.signaled ==> reg.armed)
      && AllCoherent(replays)
    }

    ghost predicate DialogInv()
      reads this`isOpen, this`flags, this`oldListType, this`controlListActive, cache
    {
      && (isOpen ==> cache.flagsPrev.Some? && cache.flagsPrev.value.verify == flags.verify)
      && (isOpen && IsList(flags.select) ==>
            oldListType == flags.select && controlListActive == (flags.select == CreateControl))
    }

    // Holds in every reachable state: the cache is sound and every replay so far was coherent.
    ghost predicate Inv()
      reads this, cache, cache.strings, cache.offsets, reg
    {
      CacheInv() && DialogInv() && AllCoherent(replays)
    }

    constructor (cache: StringCache, reg: Registry)
      requires cache.Valid() && cache.contents == [] && (cache.ok ==> reg.armed)
      ensures this.cache == cache && this.reg == reg && Inv() && !isOpen && replays == []
      ensures ShownIsFilled()
    {
      this.cache, this.reg := cache, reg;
      oldListType, isOpen, flags := NoSource, false, Flags(NoSource, false, 0);
      exclude, list, objectList, controlList := [], [], [], [];
      objectListFilled, controlListFilled, controlListActive := false, false, false;
      clsidMark, restMark, steady, filledList, replays := 0, 0, false, [], [];
    }

    function RequestNow(): Request
      reads this`exclude, this`flags
    {
      Request(AsSet(exclude), flags.verify, flags.select == CreateControl)
    }

    // A change made by another program between two steps of this one.
    method Environment(c: Change)
      requires Inv()
      modifies reg
      ensures Inv() && reg.view == Changed(old(reg.view), c)
      ensures reg.signaled == (old(reg.signaled) || (c.ChangeClsids? && old(reg.armed)))
    {
      reg.Apply(c);
    }

    // The replay branch of UFillClassList.
    method ReplayCache()
      requires Inv() && isOpen && IsList(flags.select)
      requires cache.ok && cache.contents != [] && !reg.signaled
      modifies this`list, this`replays, cache`nextStringNum
      ensures Inv() && list == cache.contents
      ensures replays == old(replays) + [NewReplay()]
    {
      hide Scan, Holds, AllText, IsBlockSize, AllCoherent;
      list := Enumerate(cache);
      ghost var r := NewReplay();
      OneMoreReplay(replays, r);
      replays := replays + [r];
    }

    // The state of a scan that has read `count` keys for the request `req`.
    ghost predicate Filling(count: nat, req: Request)
      reads this, cache, cache.strings, cache.offsets, reg
    {
      && cache.Valid() && req == filledRequest
      && clsidMark <= reg.clsidChanges && restMark <= reg.restChanges
      && (clsidMark == reg.clsidChanges ==> filledView.clsids == reg.view.clsids)
      && (steady == (restMark == reg.restChanges))
      && (steady ==> filledView.progIds == reg.view.progIds && filledView.files == reg.view.files)
      && (cache.ok ==> cache.contents == list && (!reg.signaled ==> reg.armed && clsidMark == reg.clsidChanges))
      && (clsidMark == reg.clsidChanges && steady ==>
            count <= |filledView.progIds| && list == ScanTo(filledView, count, req))
    }

    // The changes that land while a scan is running, between two of its steps.
    method Interrupt(changes: seq<Change>, ghost count: nat, req: Request)
      requires Filling(count, req)
      modifies this`steady, reg
      ensures Filling(count, req)
      ensures changes == [] ==> unchanged(reg)
      ensures reg.view == ChangedBy(old(reg.view), changes)
    {
      hide Holds, AllText, IsBlockSize;
      for i := 0 to |changes|
        invariant Filling(count, req) && (changes == [] ==> unchanged(reg))
        invariant reg.view == ChangedBy(old(reg.view), changes[..i])
      {
        InterruptOnce(changes[i], count, req);
        assert changes[..i + 1][..i] == changes[..i];
      }
      assert changes[..|changes|] == changes;
    }

    method InterruptOnce(c: Change, ghost count: nat, req: Request)
      requires Filling(count, req)
      modifies this`steady, reg
      ensures Filling(count, req) && reg.view == Changed(old(reg.view), c)
    {
      hide Holds, AllText, IsBlockSize;
      reg.Apply(c);
      steady := steady && restMark == reg.restChanges;
    }

    // One key of the scan: the loop body of UFillClassList.
    method ScanKey(key: nat, req: Request, w: Weather)
      requires Filling(key, req) && key < |reg.view.progIds|
      modifies this`list, cache, cache.strings, cache.offsets
      ensures Filling(key + 1, req)
      ensures list == AddKey(old(list), Candidate(reg.view, reg.view.progIds[key], req), req)
      ensures cache.ok ==> old(cache.ok)
      ensures old(cache.ok) && w.tableMemory && w.blockMemory && |Pack(list)| <= MAX_BLOCK ==> cache.ok
      ensures fresh(cache.strings) || cache.strings == old(cache.strings)
      ensures fresh(cache.offsets) || cache.offsets == old(cache.offsets)
      ensures cache.flagsPrev == old(cache.flagsPrev) && cache.excludePrev == old(cache.excludePrev)
    {
      hide Candidate, Holds, AllText, IsBlockSize;
      var e := Candidate(reg.view, reg.view.progIds[key], req);
      CandidateIsText(reg.view, reg.view.progIds[key], req);
      var items := AddKey(list, e, req);
      if items != list { AddEntry(items[|items| - 1], w); }
    }

    // A string that passed the tests goes to the list box and, if the cache is usable, to the cache.
    method AddEntry(item: Text, w: Weather)
      requires cache.Valid() && (cache.ok ==> cache.contents == list)
      requires IsText(item) && SizeOf(item) <= CACHE_MAX_BYTES_INITIAL
      modifies this`list, cache, cache.strings, cache.offsets
      ensures list == old(list) + [item]
      ensures cache.Valid() && (cache.ok ==> cache.contents == list && old(cache.ok))
      ensures old(cache.ok) && w.tableMemory && w.blockMemory && |Pack(list)| <= MAX_BLOCK ==> cache.ok
      ensures fresh(cache.strings) || cache.strings == old(cache.strings)
      ensures fresh(cache.offsets) || cache.offsets == old(cache.offsets)
      ensures cache.flagsPrev == old(cache.flagsPrev) && cache.excludePrev == old(cache.excludePrev)
    {
      hide Holds, AllText, IsBlockSize, Pack, Encode, IsText;
      PackSnoc(list, item);
      list := list + [item];
      if cache.ok { var added := cache.AddString(item, w.tableMemory, w.blockMemory); }
    }

    // The fill branch of UFillClassList: the scan reads the registry key by key, and a change may
    // land before each key. Returns the number of enumeration calls, or -1.
    method FillFromRegistry(w: Weather) returns (count: int)
      requires ReadyToFill() && isOpen && IsList(flags.select)
      modifies this`list, this`filledList, this`filledView, this`filledRequest,
               this`clsidMark, this`restMark, this`steady,
               cache, cache.strings, cache.offsets, reg
      ensures Inv()
      ensures fresh(cache.strings) || cache.strings == old(cache.strings)
      ensures fresh(cache.offsets) || cache.offsets == old(cache.offsets)
      ensures count == -1 <==> !w.memory || !w.keyOpened
      ensures cache.flagsPrev == old(cache.flagsPrev) && cache.excludePrev == old(cache.excludePrev)
      ensures count == -1 ==> list == [] && cache.ok == old(cache.ok) && (cache.ok ==> cache.contents == [])
      ensures count != -1 && cache.ok ==> cache.contents == list && old(cache.ok)
      ensures count != -1 && old(cache.ok) && Granted(w) && |Pack(list)| <= MAX_BLOCK ==> cache.ok
      ensures count != -1 && reg.clsidChanges == old(reg.clsidChanges) && reg.restChanges == old(reg.restChanges)
        ==> list == Scan(reg.view, RequestNow()) && count == |reg.view.progIds| + 1
      ensures w.changes == [] ==> unchanged(reg)
      ensures count >= -1
      ensures count >= 0 ==>
        && reg.view == ViewAt(old(reg.view), w.changes, count)
        && count > |reg.view.progIds| && list == Swept(old(reg.view), w.changes, count, RequestNow())
    {
      hide Scan, Holds, AllText, IsBlockSize, Swept, ViewAt;
      ClearForFill();
      if !w.memory || !w.keyOpened { return -1; }
      count := ScanRegistry(w);
    }

    // The scan of a fill that has cleared the list box and the cache.
    method ScanRegistry(w: Weather) returns (count: nat)
      requires Inv() && isOpen && IsList(flags.select) && list == [] && (cache.ok ==> cache.contents == [])
      modifies this`list, this`filledList, this`filledView, this`filledRequest,
               this`clsidMark, this`restMark, this`steady,
               cache, cache.strings, cache.offsets, reg
      ensures Inv()
      ensures fresh(cache.strings) || cache.strings == old(cache.strings)
      ensures fresh(cache.offsets) || cache.offsets == old(cache.offsets)
      ensures cache.flagsPrev == old(cache.flagsPrev) && cache.excludePrev == old(cache.excludePrev)
      ensures cache.ok ==> cache.contents == list && old(cache.ok)
      ensures old(cache.ok) && w.tableMemory && w.blockMemory && |Pack(list)| <= MAX_BLOCK ==> cache.ok
      ensures reg.clsidChanges == old(reg.clsidChanges) && reg.restChanges == old(reg.restChanges)
        ==> list == Scan(reg.view, RequestNow()) && count == |reg.view.progIds| + 1
      ensures w.changes == [] ==> unchanged(reg)
      ensures reg.view == ViewAt(old(reg.view), w.changes, count)
      ensures count > |reg.view.progIds| && list == Swept(old(reg.view), w.changes, count, RequestNow())
    {
      hide Scan, Holds, AllText, IsBlockSize, AllCoherent, Swept, ViewAt;
      BeginFill();
      count := ScanKeys(RequestNow(), w);
      EndFill(count - 1);
    }

    // A scan that has read every key leaves a sound cache and, if nothing changed, a fresh list.
    lemma FillIsSound(count: nat)
      requires Filling(count, filledRequest) && count >= |reg.view.progIds| && filledRequest == RequestNow()
      requires filledList == list
      requires DialogInv() && isOpen && IsList(flags.select)
      ensures CacheInv()
      ensures clsidMark == reg.clsidChanges && restMark == reg.restChanges ==>
        list == Scan(reg.view, RequestNow()) && count == |reg.view.progIds|
    {
      if clsidMark == reg.clsidChanges && steady {
        assert filledView == reg.view;
      }
    }

    ghost method EndFill(count: nat)
      requires Filling(count, filledRequest) && count >= |reg.view.progIds| && filledRequest == RequestNow()
      requires DialogInv() && isOpen && IsList(flags.select) && AllCoherent(replays)
      modifies this`filledList
      ensures Inv()
      ensures clsidMark == reg.clsidChanges && restMark == reg.restChanges ==>
        list == Scan(reg.view, RequestNow()) && count == |reg.view.progIds|
    {
      hide Scan, Holds, AllText, IsBlockSize, AllCoherent;
      filledList := list;
      FillIsSound(count);
    }

    method ClearForFill()
      requires ReadyToFill()
      modifies this`list, cache`nextStringNum, cache`stringCount, cache`contents
      ensures ReadyToFill() && CacheInv() && list == [] && (cache.ok ==> cache.contents == [])
    {
      hide Scan, Holds, AllText, IsBlockSize;
      list := [];
      if cache.ok { cache.FlushCache(); }
    }

    ghost method BeginFill()
      requires cache.Valid() && (cache.ok ==> cache.contents == [] && (!reg.signaled ==> reg.armed)) && list == []
      modifies this`filledView, this`filledRequest, this`clsidMark, this`restMark, this`steady
      ensures filledView == reg.view && filledRequest == RequestNow()
      ensures clsidMark == reg.clsidChanges && restMark == reg.restChanges && steady
      ensures Filling(0, filledRequest)
    {
      filledView, filledRequest := reg.view, RequestNow();
      clsidMark, restMark, steady := reg.clsidChanges, reg.restChanges, true;
    }

    // The scan loop; `count` is the number of RegEnumKey calls, the failing last one included.
    method ScanKeys(req: Request, w: Weather) returns (count: nat)
      requires Filling(0, req) && list == []
      modifies this`list, this`steady, cache, cache.strings, cache.offsets, reg
      ensures reg.view == ViewAt(old(reg.view), w.changes, count)
      ensures list == Swept(old(reg.view), w.changes, count, req)
      ensures count > 0 && Filling(count - 1, req) && count - 1 >= |reg.view.progIds|
      ensures cache.ok ==> old(cache.ok)
      ensures old(cache.ok) && w.tableMemory && w.blockMemory && |Pack(list)| <= MAX_BLOCK ==> cache.ok
      ensures fresh(cache.strings) || cache.strings == old(cache.strings)
      ensures fresh(cache.offsets) || cache.offsets == old(cache.offsets)
      ensures cache.flagsPrev == old(cache.flagsPrev) && cache.excludePrev == old(cache.excludePrev)
      ensures w.changes == [] ==> unchanged(reg)
    {
      hide Candidate, AddKey, ChangedBy, Holds, AllText, IsBlockSize;
      count := 0;
      var more := true;
      ghost var keys := 0;
      while more
        invariant Filling(keys, req) && keys == (if more then count else count - 1)
        invariant more || keys >= |reg.view.progIds|
        invariant reg.view == ViewAt(old(reg.view), w.changes, count)
        invariant list == Swept(old(reg.view), w.changes, count, req)
        invariant cache.flagsPrev == old(cache.flagsPrev) && cache.excludePrev == old(cache.excludePrev)
        invariant fresh(cache.strings) || cache.strings == old(cache.strings)
        invariant fresh(cache.offsets) || cache.offsets == old(cache.offsets)
        invariant w.changes == [] ==> unchanged(reg)
        invariant cache.ok ==> old(cache.ok)
        invariant old(cache.ok) && w.tableMemory && w.blockMemory && |Pack(list)| <= MAX_BLOCK ==> cache.ok
        decreases more, if count < |w.changes| then |w.changes| - count else 0, |reg.view.progIds| - count
      {
        more := ScanNext(count, req, w);
        keys := if more then keys + 1 else keys;
        count := count + 1;
      }
    }

    // One RegEnumKey call, after whatever change has landed, and the key it finds.
    method ScanNext(count: nat, req: Request, w: Weather) returns (more: bool)
      requires Filling(count, req)
      modifies this`list, this`steady, cache, cache.strings, cache.offsets, reg
      ensures more <==> count < |reg.view.progIds|
      ensures reg.view == if count < |w.changes| then ChangedBy(old(reg.view), w.changes[count]) else old(reg.view)
      ensures list == if more then AddKey(old(list), Candidate(reg.view, reg.view.progIds[count], req), req)
                      else old(list)
      ensures |Pack(old(list))| <= |Pack(list)| && (cache.ok ==> old(cache.ok))
      ensures old(cache.ok) && w.tableMemory && w.blockMemory && |Pack(list)| <= MAX_BLOCK ==> cache.ok
      ensures Filling(if more then count + 1 else count, req)
      ensures fresh(cache.strings) || cache.strings == old(cache.strings)
      ensures fresh(cache.offsets) || cache.offsets == old(cache.offsets)
      ensures cache.flagsPrev == old(cache.flagsPrev) && cache.excludePrev == old(cache.excludePrev)
      ensures count >= |w.changes| ==> unchanged(reg)
    {
      hide Candidate, AddKey, ChangedBy, Holds, AllText, IsBlockSize;
      if count < |w.changes| { Interrupt(w.changes[count], count, req); }
      more := count < |reg.view.progIds|;
      if more {
        PackGrows(list, Candidate(reg.view, reg.view.progIds[count], req), req);
        ScanKey(count, req, w);
      }
    }

    // The guard of the replay branch. A cache that is out of date is good enough for a fill.
    method CheckCache(w: Weather) returns (current: bool)
      requires Inv()
      modifies cache`ok, reg`armed, reg`signaled
      ensures current <==> Replays(old(Now()))
      ensures current ==> Inv() && Now() == old(Now())
      ensures !current ==> ReadyToFill()
      ensures cache.ok == (old(cache.ok) && (old(cache.contents != [] && reg.signaled) ==> w.rearm))
      ensures reg.signaled == (old(reg.signaled) && !(old(cache.ok) && cache.contents != []))
    {
      hide Scan, Holds, AllText, IsBlockSize;
      current := false;
      if cache.ok { current := cache.IsUptodate(reg, w.rearm); }
    }

    // Lists the classes, from the cache when it is usable and up to date, by a scan otherwise.
    method UFillClassList(w: Weather) returns (count: int)
      requires Inv() && isOpen && IsList(flags.select)
      modifies this`list, this`filledList, this`filledView, this`filledRequest,
               this`clsidMark, this`restMark, this`steady,
               this`replays, cache, cache.strings, cache.offsets, reg
      ensures Inv()
      ensures fresh(cache.strings) || cache.strings == old(cache.strings)
      ensures fresh(cache.offsets) || cache.offsets == old(cache.offsets)
      ensures cache.flagsPrev == old(cache.flagsPrev) && cache.excludePrev == old(cache.excludePrev)
      ensures Filled(old(Now()), w)
      ensures replays == old(replays) + if Replays(old(Now())) then [NewReplay()] else []
      ensures Replays(old(Now())) ==> count == |list|
      ensures !Replays(old(Now())) ==> (count == -1 <==> !w.memory || !w.keyOpened)
      ensures !Replays(old(Now())) && count != -1 && w.changes == [] ==> count == |reg.view.progIds| + 1
      ensures count >= -1
      ensures !Replays(old(Now())) && count >= 0 ==>
        && reg.view == ViewAt(old(reg.view), w.changes, count)
        && count > |reg.view.progIds| && list == Swept(old(reg.view), w.changes, count, RequestNow())
      ensures w.changes == [] ==> reg.view == old(reg.view)
    {
      hide Scan, Holds, AllText, IsBlockSize, Swept, ViewAt;
      var current := CheckCache(w);
      if current {
        ReplayCache();
        count := |list|;
      } else {
        count := FillFromRegistry(w);
      }
    }

    // Fills the list box of the current list type unless it has been filled already.
    method URefillClassList(w: Weather)
      requires Inv() && isOpen && IsList(flags.select)
      modifies this`list, this`filledList, this`filledView, this`filledRequest,
               this`clsidMark, this`restMark, this`steady,
               this`replays, this`controlListFilled, this`objectListFilled, this`controlList, this`objectList,
               cache, cache.strings, cache.offsets, reg
      ensures Inv()
      ensures fresh(cache.strings) || cache.strings == old(cache.strings)
      ensures fresh(cache.offsets) || cache.offsets == old(cache.offsets)
      ensures cache.flagsPrev == old(cache.flagsPrev) && cache.excludePrev == old(cache.excludePrev)
      ensures w.changes == [] ==> reg.view == old(reg.view)
      ensures old(ListFilled(flags.select)) ==> list == old(list) && replays == old(replays) && Now() == old(Now())
      ensures old(ListFilled(flags.select)) ==> unchanged(reg)
      ensures !old(ListFilled(flags.select)) ==>
        Filled(old(Now()), w) && replays == old(replays) + if Replays(old(Now())) then [NewReplay()] else []
      ensures forall o :: IsList(o) ==>
        && ListFilled(o) == (old(ListFilled(o)) || o == flags.select)
        && Box(o) == if o == flags.select && !old(ListFilled(o)) then list else old(Box(o))
    {
      hide Filled, CacheInv, DialogInv, AllCoherent;
      if !ListFilled(flags.select) {
        ghost var b := Now();
        var result := UFillClassList(w);
        MarkFilled(b, w);
      }
    }

    // The list box now shows the list and counts as filled.
    method MarkFilled(ghost b: Before, ghost w: Weather)
      requires Inv() && Filled(b, w)
      modifies this`controlListFilled, this`objectListFilled, this`controlList, this`objectList
      ensures Inv() && Filled(b, w)
      ensures controlListFilled == (old(controlListFilled) || flags.select == CreateControl)
      ensures objectListFilled == (old(objectListFilled) || flags.select != CreateControl)
      ensures controlList == if flags.select == CreateControl then list else old(controlList)
      ensures objectList == if flags.select != CreateControl then list else old(objectList)
    {
      hide Scan, Holds, AllText, IsBlockSize;
      if flags.select == CreateControl {
        controlListFilled, controlList := true, list;
      } else {
        objectListFilled, objectList := true, list;
      }
    }

    // The flush that FToggleObjectSource makes when the list type changes.
    method SetListType(option: Source)
      requires CacheInv() && IsList(option)
      modifies this`oldListType, cache`nextStringNum, cache`stringCount, cache`contents
      ensures CacheInv() && oldListType == option
      ensures Now() == old(NowFor(option))
    {
      hide Scan, Holds, AllText, IsBlockSize;
      if option == CreateControl {
        if oldListType == CreateNew { cache.FlushCache(); }
        oldListType := CreateControl;
      } else {
        if oldListType == CreateControl { cache.FlushCache(); }
        oldListType := CreateNew;
      }
    }

    method SwitchListType(option: Source)
      requires Inv() && flags.select != option
      modifies this`oldListType, this`flags, this`controlListActive,
               cache`nextStringNum, cache`stringCount, cache`contents
      ensures Inv() && flags == old(flags).(select := option)
      ensures Now() == old(NowFor(option))
      ensures IsList(option) ==> controlListActive == (option == CreateControl)
    {
      hide Scan, Holds, AllText, IsBlockSize;
      if IsList(option) {
        SetListType(option);
        controlListActive := option == CreateControl;
      }
      flags := flags.(select := option);
    }

    // Returns whether the option was selected already.
    method FToggleObjectSource(option: Source, w: Weather) returns (already: bool)
      requires Inv() && isOpen && ShownIsFilled()
      modifies this, cache, cache.strings, cache.offsets, reg
      ensures Inv() && isOpen && ShownIsFilled()
      ensures fresh(cache.strings) || cache.strings == old(cache.strings)
      ensures fresh(cache.offsets) || cache.offsets == old(cache.offsets)
      ensures already == (option != NoSource && old(flags.select) == option)
      ensures flags == old(flags).(select := option) && exclude == old(exclude)
      ensures cache.flagsPrev == old(cache.flagsPrev) && cache.excludePrev == old(cache.excludePrev)
      ensures w.changes == [] ==> reg.view == old(reg.view)
      ensures !already && IsList(option) && !old(ListFilled(option)) ==>
        && Filled(old(NowFor(option)), w)
        && replays == old(replays) + if Replays(old(NowFor(option))) then [NewReplay()] else []
      ensures already || !IsList(option) || old(ListFilled(option)) ==>
        list == old(list) && replays == old(replays) && unchanged(reg)
      ensures forall o :: IsList(o) ==>
        && ListFilled(o) == (old(ListFilled(o)) || o == option)
        && Box(o) == if o == option && !old(ListFilled(o)) then list else old(Box(o))
    {
      hide Filled, CacheInv, AllCoherent;
      if flags.select == option { return option != NoSource; }
      SelectSource(option, w);
      return false;
    }

    // The part of it that a new option runs through.
    method SelectSource(option: Source, w: Weather)
      requires Inv() && isOpen && flags.select != option
      modifies this, cache, cache.strings, cache.offsets, reg
      ensures Inv() && isOpen
      ensures fresh(cache.strings) || cache.strings == old(cache.strings)
      ensures fresh(cache.offsets) || cache.offsets == old(cache.offsets)
      ensures flags == old(flags).(select := option) && exclude == old(exclude)
      ensures cache.flagsPrev == old(cache.flagsPrev) && cache.excludePrev == old(cache.excludePrev)
      ensures w.changes == [] ==> reg.view == old(reg.view)
      ensures IsList(option) && !old(ListFilled(option)) ==>
        && Filled(old(NowFor(option)), w)
        && replays == old(replays) + if Replays(old(NowFor(option))) then [NewReplay()] else []
      ensures !IsList(option) || old(ListFilled(option)) ==>
        list == old(list) && replays == old(replays) && unchanged(reg)
      ensures forall o :: IsList(o) ==>
        && ListFilled(o) == (old(ListFilled(o)) || o == option)
        && Box(o) == if o == option && !old(ListFilled(o)) then list else old(Box(o))
    {
      hide Filled, CacheInv, AllCoherent;
      ghost var b := NowFor(option);
      SwitchListType(option);
      if IsList(option) {
        if (controlListActive && !controlListFilled) || (!controlListActive && !objectListFilled) {
          URefillClassList(w);
          assert Filled(b, w);
        }
      }
    }

    // OleUIInsertObject up to the end of FInsertObjectInit.
    method Open(callFlags: Flags, callExclude: seq<Text>, w: Weather)
      requires Inv() && !isOpen
      modifies this, cache, cache.strings, cache.offsets, reg
      ensures Inv() && isOpen && flags == callFlags && exclude == callExclude
      ensures forall o :: IsList(o) ==>
        ListFilled(o) == (o == callFlags.select) && Box(o) == if o == callFlags.select then list else []
      ensures cache.flagsPrev == Some(callFlags) && cache.excludePrev == |callExclude|
      ensures w.changes == [] ==> reg.view == old(reg.view)
      ensures IsList(callFlags.select) ==>
        && Filled(old(NowForCall(callFlags, |callExclude|)), w)
        && replays == old(replays) + if Replays(old(NowForCall(callFlags, |callExclude|))) then [NewReplay()] else []
      ensures !IsList(callFlags.select) ==> list == old(list) && replays == old(replays)
      ensures fresh(cache.strings) || cache.strings == old(cache.strings)
      ensures fresh(cache.offsets) || cache.offsets == old(cache.offsets)
    {
      hide Filled, CacheInv, AllCoherent;
      TellCache(callFlags, |callExclude|);
      StartDialog(callFlags, callExclude);
      ghost var b := NowFor(callFlags.select);
      assert b == old(NowForCall(callFlags, |callExclude|));
      var already := FToggleObjectSource(callFlags.select, w);
      assert IsList(callFlags.select) ==> Filled(b, w);
    }

    // The cache hears of the call before the dialog exists.
    method TellCache(callFlags: Flags, excluded: nat)
      requires CacheInv()
      modifies cache
      ensures CacheInv() && cache.strings == old(cache.strings) && cache.offsets == old(cache.offsets)
      ensures cache.flagsPrev == Some(callFlags) && cache.excludePrev == excluded && cache.ok == old(cache.ok)
      ensures cache.contents == if old(cache.flagsPrev) == Some(callFlags) && old(cache.excludePrev) == excluded
                                then old(cache.contents) else []
    {
      hide Scan, Holds, AllText, IsBlockSize;
      cache.NewCall(callFlags, excluded);
    }

    // The dialog's own state at its creation.
    method StartDialog(callFlags: Flags, callExclude: seq<Text>)
      requires CacheInv() && AllCoherent(replays) && cache.flagsPrev == Some(callFlags)
      modifies this`isOpen, this`flags, this`exclude,
               this`objectListFilled, this`controlListFilled, this`controlListActive,
               this`objectList, this`controlList
      ensures Inv() && isOpen && flags == callFlags.(select := NoSource) && exclude == callExclude
      ensures !objectListFilled && !controlListFilled && objectList == [] == controlList
    {
      hide Scan, Holds, AllText, IsBlockSize, AllCoherent;
      ResetFields(callFlags, callExclude);
    }

    method ResetFields(callFlags: Flags, callExclude: seq<Text>)
      modifies this`isOpen, this`flags, this`exclude,
               this`objectListFilled, this`controlListFilled, this`controlListActive,
               this`objectList, this`controlList
      ensures isOpen && flags == callFlags.(select := NoSource) && exclude == callExclude
      ensures !objectListFilled && !controlListFilled && !controlListActive && objectList == [] == controlList
    {
      isOpen, flags, exclude := true, callFlags.(select := NoSource), callExclude;
      objectListFilled, controlListFilled, controlListActive := false, false, false;
      objectList, controlList := [], [];
    }

    method Close()
      requires Inv()
      modifies this`isOpen
      ensures Inv() && !isOpen
    {
      isOpen := false;
    }

    // The Add Control button, once the chosen library has registered itself. The button is shown
    // only while controls are listed.
    method AddControl(w: Weather)
      requires Inv() && isOpen && IsList(flags.select)
      modifies this`list, this`filledList, this`filledView, this`filledRequest,
               this`clsidMark, this`restMark, this`steady,
               this`replays, this`controlListFilled, this`objectListFilled, this`controlList, this`objectList,
               cache, cache.strings, cache.offsets, reg
      ensures Inv() && Filled(old(Now()), w)
      ensures replays == old(replays) + if Replays(old(Now())) then [NewReplay()] else []
      ensures fresh(cache.strings) || cache.strings == old(cache.strings)
      ensures fresh(cache.offsets) || cache.offsets == old(cache.offsets)
      ensures forall o :: IsList(o) ==>
        ListFilled(o) == (o == flags.select) && Box(o) == if o == flags.select then list else old(Box(o))
    {
      hide Filled, CacheInv, DialogInv, AllCoherent;
      controlListFilled, objectListFilled := false, false;
      URefillClassList(w);
    }

    /** Two calls with the same flags and as many exclusions, and a change by another program between them: the
        second replays what the first listed, unless the change is under CLSID; then it scans afresh. `shown`
        is the first list, `before` are the replays up to it. */
    method CallTwice(f: Flags, first: seq<Text>, second: seq<Text>, w: Weather, c: Change, w': Weather)
      returns (ghost shown: seq<Text>, ghost before: seq<Replay>)
      requires Inv() && !isOpen && IsList(f.select) && |first| == |second|
      requires cache.ok && !reg.signaled && Granted(w) && w.changes == []
      requires var l := Scan(reg.view, Request(AsSet(first), f.verify, f.select == CreateControl));
        l != [] && |Pack(l)| <= MAX_BLOCK
      modifies this, cache, cache.strings, cache.offsets, reg
      ensures Inv() && isOpen && RequestNow() == Request(AsSet(second), f.verify, f.select == CreateControl)
      ensures old(replays) <= before
      ensures shown == if Replays(old(NowForCall(f, |first|))) then old(cache.contents)
                       else Scan(old(reg.view), Request(AsSet(first), f.verify, f.select == CreateControl))
      ensures w'.changes == [] ==> reg.view == Changed(old(reg.view), c)
      ensures !c.ChangeClsids? ==> list == shown && replays == before + [NewReplay()]
      ensures c.ChangeClsids? ==> replays == before
      ensures c.ChangeClsids? && w'.memory && w'.keyOpened && w'.changes == [] ==> list == Scan(reg.view, RequestNow())
    {
      hide Scan, Holds, AllText, IsBlockSize, AllCoherent, Pack;
      ghost var a := NowForCall(f, |first|);
      Open(f, first, w);
      assert Filled(a, w);
      shown, before := list, replays;
      assert Replays(Now()) && reg.armed && oldListType == f.select;
      Close();
      Environment(c);
      ghost var b := NowForCall(f, |second|);
      assert b == Before(true, shown, c.ChangeClsids?);
      Open(f, second, w');
      assert Filled(b, w');
    }

    /** One call and two toggles: the first toggle to the other list type shows what a scan for it lists, whatever the
        cache held; toggling back fills nothing and finds both boxes as they were. `shown` is the list of the call. */
    method CallAndToggle(f: Flags, excluded: seq<Text>, other: Source, w: Weather, w': Weather, w'': Weather)
      returns (ghost shown: seq<Text>, ghost before: seq<Replay>)
      requires Inv() && !isOpen && OtherType(f.select, other)
      requires w'.memory && w'.keyOpened && w'.changes == []
      modifies this, cache, cache.strings, cache.offsets, reg
      ensures Inv() && isOpen && ShownIsFilled() && flags == f && exclude == excluded
      ensures Replays(old(NowForCall(f, |excluded|))) ==> shown == old(cache.contents)
      ensures !Replays(old(NowForCall(f, |excluded|))) && w.memory && w.keyOpened && w.changes == [] ==>
        shown == Scan(old(reg.view), Request(AsSet(excluded), f.verify, f.select == CreateControl))
      ensures w.changes == [] ==> reg.view == old(reg.view)
      ensures Box(f.select) == shown
      ensures Box(other) == Scan(reg.view, Request(AsSet(excluded), f.verify, other == CreateControl))
      ensures replays == before && old(replays) <= before
      ensures ListFilled(f.select) && ListFilled(other)
    {
      hide Scan, Holds, AllText, IsBlockSize, AllCoherent, Pack;
      ghost var a := NowForCall(f, |excluded|);
      Open(f, excluded, w);
      assert Filled(a, w);
      shown, before := list, replays;
      assert oldListType == f.select && controlListActive == (f.select == CreateControl);
      ghost var b := NowFor(other);
      assert !Replays(b);
      var already := FToggleObjectSource(other, w');
      assert Filled(b, w');
      already := FToggleObjectSource(f.select, w'');
    }

    method Perform(a: Action)
      requires Inv() && ShownIsFilled()
      modifies this, cache, cache.strings, cache.offsets, reg
      ensures Inv() && ShownIsFilled() && old(replays) <= replays
      ensures fresh(cache.strings) || cache.strings == old(cache.strings)
      ensures fresh(cache.offsets) || cache.offsets == old(cache.offsets)
      ensures a.Call? && !old(isOpen) ==> isOpen && flags == a.flags && exclude == a.exclude
      ensures a.Call? && !old(isOpen) && IsList(a.flags.select) ==>
        && Filled(old(NowForCall(a.flags, |a.exclude|)), a.w)
        && replays == old(replays) + if Replays(old(NowForCall(a.flags, |a.exclude|))) then [NewReplay()] else []
      ensures a.Toggle? && old(isOpen) ==> isOpen && flags == old(flags).(select := a.option)
      ensures a.Toggle? && old(isOpen) && IsList(a.option)
              && a.option != old(flags.select) && !old(ListFilled(a.option)) ==>
        && Filled(old(NowFor(a.option)), a.w)
        && replays == old(replays) + if Replays(old(NowFor(a.option))) then [NewReplay()] else []
      ensures a.Toggle? && old(isOpen) && (!IsList(a.option) || old(ListFilled(a.option))) ==> replays == old(replays)
      ensures a.Toggle? && old(isOpen) ==> forall o :: IsList(o) ==>
        && ListFilled(o) == (old(ListFilled(o)) || o == a.option)
        && Box(o) == if o == a.option && !old(ListFilled(o)) then list else old(Box(o))
      ensures a.Call? && !old(isOpen) ==> forall o :: IsList(o) ==>
        ListFilled(o) == (o == a.flags.select) && Box(o) == if o == a.flags.select then list else []
      ensures a.Add? && old(isOpen) && IsList(old(flags.select)) ==>
        Filled(old(Now()), a.w) && replays == old(replays) + if Replays(old(Now())) then [NewReplay()] else []
      ensures a.Add? && old(isOpen) && IsList(old(flags.select)) ==> forall o :: IsList(o) ==>
        ListFilled(o) == (o == flags.select) && Box(o) == if o == flags.select then list else old(Box(o))
      ensures a.Dismiss? || a.Outside? ==> forall o :: IsList(o) ==>
        ListFilled(o) == old(ListFilled(o)) && Box(o) == old(Box(o))
      ensures a.Dismiss? ==> !isOpen && replays == old(replays)
      ensures a.Outside? ==> reg.view == Changed(old(reg.view), a.change) && replays == old(replays)
    {
      hide Filled, CacheInv, AllCoherent;
      match a
      case Call(callFlags, callExclude, w) =>
        if !isOpen { Open(callFlags, callExclude, w); }
      case Toggle(option, w) =>
        if isOpen { var already := FToggleObjectSource(option, w); }
      case Add(w) =>
        if isOpen && IsList(flags.select) { AddControl(w); }
      case Dismiss => Close();
      case Outside(c) => Environment(c);
    }

    /** Whole runs: whatever the interleaving of calls, toggles, additions and registry changes,
        every replay that happens is coherent. */
    method Run(script: seq<Action>)
      requires Inv() && ShownIsFilled()
      modifies this, cache, cache.strings, cache.offsets, reg
      ensures Inv() && ShownIsFilled() && old(replays) <= replays
      ensures forall i :: 0 <= i < |replays| ==> Coherent(replays[i])
      ensures forall i :: 0 <= i < |replays| && UnwatchedUnchanged(replays[i]) ==>
        replays[i].listed == Scan(replays[i].view, replays[i].request)
    {
      for k := 0 to |script|
        invariant Inv() && ShownIsFilled() && old(replays) <= replays
        invariant fresh(cache.strings) || cache.strings == old(cache.strings)
        invariant fresh(cache.offsets) || cache.offsets == old(cache.offsets)
      {
        Perform(script[k]);
      }
      AllCoherentMeans(replays);
      forall i | 0 <= i < |replays| && UnwatchedUnchanged(replays[i])
        ensures replays[i].listed == Scan(replays[i].view, replays[i].request)
      {
        ReplayIsFreshScan(replays[i]);
      }
    }
  }

  /** Where coherence stops: the watch covers HKCR\CLSID only. Between two equal calls the one ProgId is removed;
      the second call replays its class, which a fresh scan would not list. */
  method StaleAfterProgIdRemoval() returns (d: Dialog)
    ensures d.Inv() && |d.replays| > 0
    ensures var r := d.replays[|d.replays| - 1];
      && r.view == OneClass().(progIds := []) && r.request == Request({}, false, false)
      && r.listed == [OneEntry()] && Scan(r.view, r.request) == []
  {
    hide Scan, Pack, OneClass, Guid;
    d := OpenOnOneClass();
    OneClassLists({});
    assert AsSet([]) == {};
    var f := Flags(CreateNew, false, 0);
    ghost var shown, before := d.CallTwice(f, [], [], FairWeather(), ChangeRest([], OneClass().files), FairWeather());
  }

  /** The other limit: calls are told apart by the number of excluded classes. The second call excludes another
      class than the first and replays the one it excludes. */
  method StaleAfterOtherExclusion() returns (d: Dialog)
    ensures d.Inv() && |d.replays| > 0
    ensures var r := d.replays[|d.replays| - 1];
      && r.view == OneClass() && r.request == Request({ZeroGuid()}, false, false)
      && r.listed == [OneEntry()] && Scan(r.view, r.request) == []
  {
    hide Scan, Pack, OneClass, Guid;
    d := OpenOnOneClass();
    var other := Guid(0x31);
    assert AsSet([other]) == {other} && AsSet([ZeroGuid()]) == {ZeroGuid()};
    assert other[36] != ZeroGuid()[36];
    OneClassLists({other});
    OneClassLists({ZeroGuid()});
    var f := Flags(CreateNew, false, 0);
    ghost var shown, before := d.CallTwice(f, [other], [ZeroGuid()], FairWeather(), Quiet, FairWeather());
  }

  // A dialog not yet called, over a registry with one class and a cache for which everything was granted.
  method OpenOnOneClass() returns (d: Dialog)
    ensures fresh(d) && fresh(d.cache) && fresh(d.cache.strings) && fresh(d.cache.offsets) && fresh(d.reg)
    ensures d.Inv() && !d.isOpen && d.replays == [] && d.cache.ok && d.cache.contents == [] && !d.reg.signaled
    ensures d.reg.view == OneClass()
  {
    var reg := new Registry(OneClass());
    var cache := new StringCache.Init(reg, true, true, true, true);
    d := new Dialog(cache, reg);
  }

  // A step of a run: of the dialog's user and caller, or of another program.
  datatype Action = Call(flags: Flags, exclude: seq<Text>, w: Weather)
                  | Toggle(option: Source, w: Weather)
                  | Add(w: Weather)
                  | Dismiss
                  | Outside(change: Change)

  // The enumeration loop of the replay branch.
  method Enumerate(cache: StringCache) returns (l: seq<Text>)
    requires cache.Valid() && cache.ok
    modifies cache`nextStringNum
    ensures cache.Valid() && l == cache.contents
  {
    hide Holds, AllText, IsBlockSize;
    l := [];
    cache.ResetEnumerator();
    var at := cache.NextString();
    while at.Some?
      invariant cache.Valid() && |l| <= |cache.contents| && l == cache.contents[..|l|]
      invariant at.Some? ==> cache.nextStringNum == |l| + 2 && |l| < |cache.contents|
                             && Decode(cache.strings[..], at.value) == Some(cache.contents[|l|])
      invariant at.None? ==> |l| == |cache.contents|
      decreases |cache.contents| - |l|, at.Some?
    {
      l := l + [Decode(cache.strings[..], at.value).value];
      at := cache.NextString();
    }
  }
}
