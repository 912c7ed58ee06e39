/**
 HKEY_CLASSES_ROOT as the Insert Object dialog reads it, the one-shot watch on its CLSID
 subtree, and the list of strings that a scan of one fixed registry produces.
 */
module ClassRegistry {
  import opened Common

  // A ProgId key: its subkeys and values that the scan looks at. `ole1Clsid` is what
  // CLSIDFromProgID would answer for a class without a CLSID subkey.
  datatype ProgId = ProgId(name: Text, notInsertable: bool, insertable: bool, clsid: Option<Text>,
                           ole1Server: Option<Text>, title: Option<Text>, ole1Clsid: Option<Text>)

  // A CLSID\{...} key; the four server values are in the order the scan tries them.
  datatype ClsidKey = ClsidKey(control: bool, insertable: bool, localServer32: Option<Text>,
                               localServer: Option<Text>, inProcServer32: Option<Text>,
                               inProcServer: Option<Text>, title: Option<Text>)

  // Only `clsids` is covered by the change notification.
  datatype View = View(progIds: seq<ProgId>, clsids: map<Text, ClsidKey>, files: set<Text>)

  // What the caller asked for: the list of controls or of objects, and its other options.
  datatype Request = Request(excluded: set<Text>, verify: bool, controls: bool)

  datatype Entry = Entry(title: Text, id: Text)

  const OLEUI_CCHKEYMAX := 256
  const TAB: TChar := 9

  predicate IsAlpha(c: TChar) {
    0x41 <= c <= 0x5A || 0x61 <= c <= 0x7A
  }

  predicate IsHex(c: TChar) {
    0x30 <= c <= 0x39 || 0x41 <= c <= 0x46 || 0x61 <= c <= 0x66
  }

  // The shape CLSIDFromString accepts: {8-4-4-4-12} hexadecimal digits.
  predicate IsGuidText(t: Text) {
    && |t| == 38 && t[0] == 0x7B && t[37] == 0x7D
    && forall i :: 1 <= i < 37 ==> if i in {9, 14, 19, 24} then t[i] == 0x2D else IsHex(t[i])
  }

  function Fold(t: Text): Text {
    seq(|t|, i requires 0 <= i < |t| => if 0x41 <= t[i] <= 0x5A then t[i] + 0x20 else t[i])
  }

  // RegQueryValue into a buffer of OLEUI_CCHKEYMAX characters.
  function Query(value: Option<Text>): (r: Option<Text>)
    ensures r.Some? ==> IsText(r.value) && |r.value| < OLEUI_CCHKEYMAX
  {
    if value.Some? && IsText(value.value) && |value.value| < OLEUI_CCHKEYMAX then value else None
  }

  function FirstServer(k: ClsidKey): Option<Text> {
    if Query(k.localServer32).Some? then Query(k.localServer32)
    else if Query(k.localServer).Some? then Query(k.localServer)
    else if Query(k.inProcServer32).Some? then Query(k.inProcServer32)
    else Query(k.inProcServer)
  }

  function ClassCandidate(v: View, id: Text, req: Request): Option<Entry> {
    if id !in v.clsids then None
    else
      var k := v.clsids[id];
      if !req.controls && k.control then None
      else if req.controls && !(k.control && k.insertable) then None
      else if req.verify && (FirstServer(k).None? || FirstServer(k).value !in v.files) then None
      else if Query(k.title).None? || !IsGuidText(id) then None
      else Some(Entry(Query(k.title).value, id))
  }

  // An OLE 1.0 server. When the class has no readable name the buffer still holds the server path.
  function Ole1Candidate(v: View, p: ProgId, req: Request): Option<Entry> {
    var server := Query(p.ole1Server);
    if server.None? || (req.verify && server.value !in v.files) then None
    else
      var title := if Query(p.title).Some? then Query(p.title).value else server.value;
      var id := if Query(p.clsid).Some? then Query(p.clsid) else Query(p.ole1Clsid);
      if id.None? || !IsGuidText(id.value) then None else Some(Entry(title, id.value))
  }

  function Candidate(v: View, p: ProgId, req: Request): Option<Entry> {
    if p.name == [] || !IsAlpha(p.name[0]) || p.notInsertable then None
    else if p.insertable || req.controls then
      match Query(p.clsid)
      case None => None
      case Some(id) => ClassCandidate(v, id, req)
    else Ole1Candidate(v, p, req)
  }

  // LB_FINDSTRING: some item starts with the text, ignoring case.
  predicate Found(items: seq<Text>, t: Text) {
    exists i :: 0 <= i < |items| && Fold(t) <= Fold(items[i])
  }

  // The list box after one key of the scan.
  function AddKey(items: seq<Text>, e: Option<Entry>, req: Request): seq<Text> {
    if e.Some? && e.value.title != [] && Fold(e.value.id) !in req.excluded && !Found(items, e.value.title)
    then items + [e.value.title + [TAB] + e.value.id]
    else items
  }

  // The strings listed by a scan of the first n ProgIds of an unchanging registry.
  function ScanTo(v: View, n: nat, req: Request): seq<Text>
    requires n <= |v.progIds|
  {
    if n == 0 then [] else AddKey(ScanTo(v, n - 1, req), Candidate(v, v.progIds[n - 1], req), req)
  }

  function Scan(v: View, req: Request): seq<Text> {
    ScanTo(v, |v.progIds|, req)
  }

  function Servers(k: ClsidKey): (l: seq<Option<Text>>)
    ensures |l| == 4
  {
    [k.localServer32, k.localServer, k.inProcServer32, k.inProcServer]
  }

  // The n-th server is readable, and none before it is.
  predicate IsFirstServer(k: ClsidKey, n: nat, path: Text)
    requires n < 4
  {
    Query(Servers(k)[n]) == Some(path) && forall m :: 0 <= m < n ==> Query(Servers(k)[m]).None?
  }

  // The dialog may show a class under this title: it has the kind asked for, a name that can be read, and, if
  // servers are verified, a server file that exists.
  ghost predicate ShowsClass(v: View, req: Request, e: Entry) {
    && e.id in v.clsids && IsGuidText(e.id) && Query(v.clsids[e.id].title) == Some(e.title)
    && v.clsids[e.id].control == req.controls && (req.controls ==> v.clsids[e.id].insertable)
    && (req.verify ==> exists n: nat, path :: n < 4 && IsFirstServer(v.clsids[e.id], n, path) && path in v.files)
  }

  // The same for a ProgId of OLE 1.0, which has a server of its own and may lack the name and the identifier.
  ghost predicate ShowsOle1(v: View, p: ProgId, req: Request, e: Entry) {
    && IsGuidText(e.id) && Some(e.id) in {Query(p.clsid), Query(p.ole1Clsid)}
    && (Query(p.clsid).Some? ==> Query(p.clsid) == Some(e.id))
    && Query(p.ole1Server).Some? && (req.verify ==> Query(p.ole1Server).value in v.files)
    && Some(e.title) in {Query(p.title), Query(p.ole1Server)}
    && (Query(p.title).Some? ==> Query(p.title) == Some(e.title))
  }

  ghost predicate Offers(v: View, p: ProgId, req: Request, e: Entry) {
    && p.name != [] && IsAlpha(p.name[0]) && !p.notInsertable
    && e.title != [] && Fold(e.id) !in req.excluded
    && if p.insertable || req.controls then Query(p.clsid) == Some(e.id) && ShowsClass(v, req, e)
       else ShowsOle1(v, p, req, e)
  }

  lemma FirstServerExact(k: ClsidKey, path: Text)
    ensures FirstServer(k) == Some(path) <==> exists n: nat :: n < 4 && IsFirstServer(k, n, path)
  {
    var l := Servers(k);
    assert Query(l[0]).Some? ==> IsFirstServer(k, 0, Query(l[0]).value);
    assert Query(l[0]).None? && Query(l[1]).Some? ==> IsFirstServer(k, 1, Query(l[1]).value);
    assert Query(l[0]).None? && Query(l[1]).None? && Query(l[2]).Some? ==> IsFirstServer(k, 2, Query(l[2]).value);
    assert FirstServer(k) == Query(l[3]) && FirstServer(k).Some? ==>
      Query(l[0]).Some? || Query(l[1]).Some? || Query(l[2]).Some? || IsFirstServer(k, 3, Query(l[3]).value);
  }

  lemma ClassExact(v: View, id: Text, req: Request, e: Entry)
    ensures ClassCandidate(v, id, req) == Some(e) <==> e.id == id && ShowsClass(v, req, e)
  {
    hide Query, IsGuidText, IsFirstServer, FirstServer;
    if id in v.clsids { VerifyExact(v.clsids[id], v.files); }
  }

  lemma VerifyExact(k: ClsidKey, files: set<Text>)
    ensures FirstServer(k).Some? && FirstServer(k).value in files <==>
      exists n: nat, path :: n < 4 && IsFirstServer(k, n, path) && path in files
  {
    hide IsFirstServer, FirstServer;
    if FirstServer(k).Some? {
      FirstServerExact(k, FirstServer(k).value);
    }
    if n: nat, path :| n < 4 && IsFirstServer(k, n, path) && path in files {
      FirstServerExact(k, path);
    }
  }

  // The tests of the loop body: what they let through, apart from the excluded and the nameless, is what is offered.
  lemma CandidateExact(v: View, p: ProgId, req: Request, e: Entry)
    ensures Candidate(v, p, req) == Some(e) && e.title != [] && Fold(e.id) !in req.excluded <==> Offers(v, p, req, e)
  {
    hide IsGuidText, ClassCandidate, ShowsClass, Fold;
    match Query(p.clsid)
    case None =>
    case Some(id) => ClassExact(v, id, req, e);
  }

  // The string at position k stands for one of the first n keys, and no string before it starts with its title.
  ghost predicate ListedAt(v: View, n: nat, req: Request, items: seq<Text>, k: nat)
    requires n <= |v.progIds| && k < |items|
  {
    exists i: nat, e :: i < n && Offers(v, v.progIds[i], req, e)
      && items[k] == e.title + [TAB] + e.id && !Found(items[..k], e.title)
  }

  lemma FoundGrows(items: seq<Text>, more: seq<Text>, t: Text)
    requires Found(items, t)
    ensures Found(items + more, t)
  {
    var i :| 0 <= i < |items| && Fold(t) <= Fold(items[i]);
    assert (items + more)[i] == items[i];
  }

  lemma FoundSelf(items: seq<Text>, e: Entry)
    ensures Found(items + [e.title + [TAB] + e.id], e.title)
  {
    var item := e.title + [TAB] + e.id;
    assert Fold(item)[..|e.title|] == Fold(e.title);
    assert (items + [item])[|items|] == item;
  }

  /** Everything listed is offered by some ProgId and listed once. */
  lemma {:induction false} ScanSound(v: View, n: nat, req: Request, k: nat)
    requires n <= |v.progIds| && k < |ScanTo(v, n, req)|
    ensures ListedAt(v, n, req, ScanTo(v, n, req), k)
  {
    hide Candidate, Offers, Found, Fold;
    var items, before := ScanTo(v, n, req), ScanTo(v, n - 1, req);
    if k < |before| {
      ScanSound(v, n - 1, req, k);
      var i: nat, e :| i < n - 1 && Offers(v, v.progIds[i], req, e)
        && before[k] == e.title + [TAB] + e.id && !Found(before[..k], e.title);
      assert items[k] == before[k] && items[..k] == before[..k];
      assert Offers(v, v.progIds[i], req, e);
    } else {
      var e := Candidate(v, v.progIds[n - 1], req).value;
      CandidateExact(v, v.progIds[n - 1], req, e);
      assert items[..k] == before;
    }
  }

  /** Everything offered is listed, or a string that starts with its title is. */
  lemma {:induction false} ScanComplete(v: View, n: nat, req: Request, i: nat, e: Entry)
    requires i < n <= |v.progIds| && Offers(v, v.progIds[i], req, e)
    ensures Found(ScanTo(v, n, req), e.title)
  {
    hide Candidate, Offers, Found, Fold;
    var items, before := ScanTo(v, n, req), ScanTo(v, n - 1, req);
    if i < n - 1 {
      ScanComplete(v, n - 1, req, i, e);
      FoundGrows(before, items[|before|..], e.title);
      assert items == before + items[|before|..];
    } else {
      CandidateExact(v, v.progIds[i], req, e);
      FoundSelf(before, e);
    }
  }

  /** A list of controls shows no other class, and a list of objects no control, except that an OLE 1.0 server may
      name one as its class. */
  lemma ListsOneKind(v: View, p: ProgId, req: Request, e: Entry)
    requires Candidate(v, p, req) == Some(e) && (p.insertable || req.controls)
    ensures e.id in v.clsids && v.clsids[e.id].control == req.controls
    ensures Candidate(v, p, req.(controls := !req.controls)) == None || (req.controls && !p.insertable)
  {
    hide IsGuidText, Query, FirstServer;
  }

  lemma CandidateIsText(v: View, p: ProgId, req: Request)
    ensures var e := Candidate(v, p, req);
      e.Some? ==> IsText(e.value.title) && |e.value.title| < 256 && IsText(e.value.id) && |e.value.id| < 256
  {
  }

  // A change of the registry that another program may make between two steps of the dialog.
  datatype Change = Quiet | ChangeClsids(clsids: map<Text, ClsidKey>)
                  | ChangeRest(progIds: seq<ProgId>, files: set<Text>)

  class Registry {
    var view: View
    var armed: bool     // a notification is registered and has not fired
    var signaled: bool  // the auto-reset event

    ghost var clsidChanges: nat
    ghost var restChanges: nat

    constructor (v: View)
      ensures view == v && !armed && !signaled
    {
      view, armed, signaled := v, false, false;
      clsidChanges, restChanges := 0, 0;
    }

    // RegNotifyChangeKeyValue on HKCR\CLSID; it fires once.
    method NotifyChange(granted: bool) returns (ok: bool)
      modifies this`armed
      ensures ok == granted && armed == (old(armed) || granted)
    {
      if granted { armed := true; }
      ok := granted;
    }

    // WaitForSingleObject with a zero timeout on the auto-reset event.
    method Poll() returns (fired: bool)
      modifies this`signaled
      ensures fired == old(signaled) && !signaled
    {
      fired, signaled := signaled, false;
    }

    method Apply(c: Change)
      modifies this
      ensures c.Quiet? ==> unchanged(this)
      ensures c.ChangeClsids? ==>
        && view == old(view).(clsids := c.clsids)
        && clsidChanges == old(clsidChanges) + 1 && restChanges == old(restChanges)
        && signaled == (old(signaled) || old(armed)) && !armed
      ensures c.ChangeRest? ==>
        && view == old(view).(progIds := c.progIds, files := c.files)
        && clsidChanges == old(clsidChanges) && restChanges == old(restChanges) + 1
        && signaled == old(signaled) && armed == old(armed)
    {
      match c
      case Quiet =>
      case ChangeClsids(m) =>
        view := view.(clsids := m);
        clsidChanges := clsidChanges + 1;
        if armed {
          signaled, armed := true, false;
        }
      case ChangeRest(p, f) =>
        view := view.(progIds := p, files := f);
        restChanges := restChanges + 1;
    }
  }
}
