/**
 The clipboard-viewer chain that the Paste Special dialogs keep by messages. Each dialog knows only
 the next viewer; HWND_BROADCAST in that property marks a dialog that is not in the chain.
 */
module ClipboardChain {

  type Hwnd = nat
  const NULL: Hwnd := 0
  const HWND_BROADCAST: Hwnd := 0xffff

  // The flags of a dialog that its clipboard handler looks at.
  datatype Options = Options(stay: bool, noRefresh: bool)

  predicate IsWindow(h: Hwnd) {
    h != NULL && h != HWND_BROADCAST
  }

  predicate NoDup(s: seq<Hwnd>) {
    s == [] || (s[|s| - 1] !in s[..|s| - 1] && NoDup(s[..|s| - 1]))
  }

  lemma {:induction false} NoDupMeans(s: seq<Hwnd>)
    ensures NoDup(s) <==> forall i, j :: 0 <= i < j < |s| ==> s[i] != s[j]
  {
    if s != [] {
      NoDupMeans(s[..|s| - 1]);
    }
  }

  // The i-th viewer, or NULL past the last.
  function At(s: seq<Hwnd>, i: nat): Hwnd {
    if i < |s| then s[i] else NULL
  }

  // Following the next properties from `from` visits exactly `s`, each window once, and ends at NULL.
  ghost predicate Linked(from: Hwnd, next: map<Hwnd, Hwnd>, s: seq<Hwnd>)
    decreases |s|
  {
    if s == [] then from == NULL
    else from == s[0] && IsWindow(from) && from in next && from !in s[1..] && Linked(next[from], next, s[1..])
  }

  function Without(s: seq<Hwnd>, k: nat): seq<Hwnd>
    requires k < |s|
  {
    s[..k] + s[k + 1..]
  }

  lemma WithoutMembers(s: seq<Hwnd>, k: nat)
    requires k < |s|
    ensures forall h :: h in s <==> h in Without(s, k) || h == s[k]
  {
    assert s == s[..k] + [s[k]] + s[k + 1..];
  }

  predicate Stays(h: Hwnd, options: map<Hwnd, Options>) {
    h in options && options[h].stay
  }

  // The viewers of a chain that stay when the clipboard changes, in order.
  function Stayers(s: seq<Hwnd>, options: map<Hwnd, Options>): seq<Hwnd> {
    if s == [] then []
    else if Stays(s[0], options) then [s[0]] + Stayers(s[1..], options)
    else Stayers(s[1..], options)
  }

  // The viewers that leave, the last of the chain first.
  function Leavers(s: seq<Hwnd>, options: map<Hwnd, Options>): seq<Hwnd> {
    if s == [] then []
    else if Stays(s[0], options) then Leavers(s[1..], options)
    else Leavers(s[1..], options) + [s[0]]
  }

  /** The chain after a pass is the old one minus exactly the dialogs that do not stay. */
  lemma {:induction false} StayersExact(s: seq<Hwnd>, options: map<Hwnd, Options>)
    ensures forall h :: h in Stayers(s, options) <==> h in s && Stays(h, options)
    ensures forall h :: h in Leavers(s, options) <==> h in s && !Stays(h, options)
  {
    if s != [] {
      StayersExact(s[1..], options);
      assert forall h :: h in s <==> h == s[0] || h in s[1..];
    }
  }

  // Whether a viewer ends its dialog on a notification: a leaver does unless its Change Icon dialog
  // is up, a stayer that refreshes does if it cannot get the new object or set itself up for it.
  predicate Ends(h: Hwnd, options: map<Hwnd, Options>, iconUp: set<Hwnd>, renewed: set<Hwnd>) {
    if Stays(h, options) then !options[h].noRefresh && h !in renewed else h !in iconUp
  }

  // Whether it puts the end off until the Change Icon dialog returns.
  predicate Defers(h: Hwnd, options: map<Hwnd, Options>, iconUp: set<Hwnd>) {
    !Stays(h, options) && h in iconUp
  }

  function Enders(s: seq<Hwnd>, options: map<Hwnd, Options>, iconUp: set<Hwnd>, renewed: set<Hwnd>): set<Hwnd> {
    if s == [] then {}
    else Enders(s[1..], options, iconUp, renewed) + if Ends(s[0], options, iconUp, renewed) then {s[0]} else {}
  }

  function Deferrers(s: seq<Hwnd>, options: map<Hwnd, Options>, iconUp: set<Hwnd>): set<Hwnd> {
    if s == [] then {}
    else Deferrers(s[1..], options, iconUp) + if Defers(s[0], options, iconUp) then {s[0]} else {}
  }

  /** A pass ends exactly the viewers it should, and every leaver ends or will once Change Icon returns. */
  lemma {:induction false} EndersExact(s: seq<Hwnd>, options: map<Hwnd, Options>, iconUp: set<Hwnd>, renewed: set<Hwnd>)
    ensures forall h :: h in s && h in options ==>
      && (h in Enders(s, options, iconUp, renewed) <==>
            if options[h].stay then !options[h].noRefresh && h !in renewed else h !in iconUp)
      && (h in Deferrers(s, options, iconUp) <==> !options[h].stay && h in iconUp)
    ensures forall h :: h in Enders(s, options, iconUp, renewed) + Deferrers(s, options, iconUp) ==> h in s
    ensures forall h :: h in Leavers(s, options) ==>
      h in Enders(s, options, iconUp, renewed) + Deferrers(s, options, iconUp)
  {
    if s != [] {
      EndersExact(s[1..], options, iconUp, renewed);
      assert forall h :: h in s <==> h == s[0] || h in s[1..];
    }
  }

  // A viewer put off is a leaver.
  lemma {:induction false} DeferrersLeave(s: seq<Hwnd>, options: map<Hwnd, Options>, iconUp: set<Hwnd>)
    ensures forall h :: h in Deferrers(s, options, iconUp) ==> h in Leavers(s, options)
  {
    if s != [] {
      DeferrersLeave(s[1..], options, iconUp);
    }
  }

  // A change of the clipboard that the dialog is not there to stay for, or whose new object it tries to get in vain.
  predicate MayEnd(h: Hwnd, options: map<Hwnd, Options>, renewed: set<Hwnd>) {
    h in options && (options[h].stay ==> !options[h].noRefresh && h !in renewed)
  }

  // One of the first n steps of the script is such a change.
  ghost predicate Caused(script: seq<Action>, n: nat, h: Hwnd, options: map<Hwnd, Options>)
    requires n <= |script|
  {
    exists i: nat :: i < n && script[i].Change? && MayEnd(h, options, script[i].renewed)
  }

  ghost predicate AllCaused(script: seq<Action>, n: nat, hs: set<Hwnd>, options: map<Hwnd, Options>)
    requires n <= |script|
  {
    forall h :: h in hs ==> Caused(script, n, h, options)
  }

  // The new ends of one step have a cause in it, or were put off and had one before.
  lemma CausedStep(script: seq<Action>, n: nat, was: set<Hwnd>, now: set<Hwnd>,
                   options: map<Hwnd, Options>, options': map<Hwnd, Options>)
    requires n < |script| && AllCaused(script, n, was, options)
    requires forall h :: h in options ==> h in options' && options'[h] == options[h]
    requires forall h :: h in now ==> h in was || (script[n].Change? && MayEnd(h, options', script[n].renewed))
    ensures AllCaused(script, n + 1, now, options')
  {
    forall h | h in now ensures Caused(script, n + 1, h, options') {
      if h in was {
        var i: nat :| i < n && script[i].Change? && MayEnd(h, options, script[i].renewed);
        assert MayEnd(h, options', script[i].renewed);
      }
    }
  }

  lemma ChangeCauses(s: seq<Hwnd>, options: map<Hwnd, Options>, iconUp: set<Hwnd>, renewed: set<Hwnd>)
    requires forall h :: h in s ==> h in options
    ensures forall h :: h in Enders(s, options, iconUp, renewed) + Deferrers(s, options, iconUp) ==>
      MayEnd(h, options, renewed)
  {
    EndersExact(s, options, iconUp, renewed);
  }

  lemma EndStep(c: seq<Hwnd>, k: nat, options: map<Hwnd, Options>, iconUp: set<Hwnd>, renewed: set<Hwnd>,
                ending: set<Hwnd>, deferred: set<Hwnd>)
    requires k < |c|
    ensures (ending + Enders(c[k + 1..], options, iconUp, renewed))
            + (if Ends(c[k], options, iconUp, renewed) then {c[k]} else {})
         == ending + Enders(c[k..], options, iconUp, renewed)
    ensures (deferred + Deferrers(c[k + 1..], options, iconUp)) + (if Defers(c[k], options, iconUp) then {c[k]} else {})
         == deferred + Deferrers(c[k..], options, iconUp)
  {
    assert c[k..][1..] == c[k + 1..];
  }

  // The chain when the viewers from position k on have reacted to a notification.
  function AfterPass(c: seq<Hwnd>, k: nat, options: map<Hwnd, Options>): seq<Hwnd>
    requires k <= |c|
  {
    c[..k] + Stayers(c[k..], options)
  }

  // One step of a pass, seen from the viewer at position k: the tail has reacted already.
  lemma PassStep(c: seq<Hwnd>, k: nat, options: map<Hwnd, Options>)
    requires k < |c|
    ensures var mid := AfterPass(c, k + 1, options);
      k < |mid| && mid[k] == c[k] && AfterPass(c, k, options) == (if Stays(c[k], options) then mid else Without(mid, k))
    ensures Leavers(c[k..], options) ==
            Leavers(c[k + 1..], options) + (if Stays(c[k], options) then [] else [c[k]])
    ensures c[k..] == [c[k]] + c[k + 1..]
  {
    var rest := Stayers(c[k + 1..], options);
    assert c[k..][1..] == c[k + 1..];
    assert c[..k + 1] + rest == c[..k] + ([c[k]] + rest);
    assert Without(c[..k + 1] + rest, k) == c[..k] + rest;
  }

  lemma WholePass(c: seq<Hwnd>, options: map<Hwnd, Options>)
    ensures c[0..] == c && AfterPass(c, 0, options) == Stayers(c, options)
  {
  }

  lemma EmptyPass(options: map<Hwnd, Options>, iconUp: set<Hwnd>, renewed: set<Hwnd>)
    ensures Stayers([], options) == [] && Leavers([], options) == []
    ensures Enders([], options, iconUp, renewed) == {} && Deferrers([], options, iconUp) == {}
  {
  }

  // A pass keeps the account of every dialog that ever joined.
  lemma AccountAfterPass(c: seq<Hwnd>, departed: seq<Hwnd>, options: map<Hwnd, Options>)
    requires forall h :: h in options <==> h in c || h in departed
    ensures forall h :: h in options <==> h in Stayers(c, options) || h in departed + Leavers(c, options)
  {
    StayersExact(c, options);
  }

  lemma AccountAfterJoin(c: seq<Hwnd>, departed: seq<Hwnd>, options: map<Hwnd, Options>, h: Hwnd, o: Options)
    requires forall g :: g in options <==> g in c || g in departed
    ensures forall g :: g in options[h := o] <==> g in [h] + c || g in departed
  {
  }

  // A walk along the next properties up to the predecessor of `gone`, or to the last viewer.
  ghost predicate Walk(next: map<Hwnd, Hwnd>, path: seq<Hwnd>, gone: Hwnd)
    ensures Walk(next, path, gone) ==> path != [] && path[|path| - 1] in next && next[path[|path| - 1]] in {gone, NULL}
  {
    && path != [] && path[0] in next
    && if |path| == 1 then next[path[0]] in {gone, NULL}
       else next[path[0]] == path[1] && IsWindow(path[1]) && path[1] != gone && Walk(next, path[1..], gone)
  }

  lemma {:induction false} LinkedAt(from: Hwnd, next: map<Hwnd, Hwnd>, s: seq<Hwnd>, k: nat)
    requires Linked(from, next, s) && k < |s|
    ensures IsWindow(s[k]) && s[k] in next && next[s[k]] == At(s, k + 1)
    ensures s[k] !in s[..k] && s[k] !in s[k + 1..] && (k > 0 ==> s[k - 1] != s[k])
    decreases |s|
  {
    if k > 0 {
      LinkedAt(next[from], next, s[1..], k - 1);
      assert s[1..][..k - 1] == s[1..k] && s[1..][k..] == s[k + 1..];
      assert s[k] in s[1..] && s[..k] == [s[0]] + s[1..k];
    }
  }

  lemma HeadOfChain(from: Hwnd, next: map<Hwnd, Hwnd>, s: seq<Hwnd>)
    requires Linked(from, next, s)
    ensures from == At(s, 0) && (from == NULL <==> s == [])
  {
  }

  lemma {:induction false} LinkedFrame(from: Hwnd, next: map<Hwnd, Hwnd>, s: seq<Hwnd>, next': map<Hwnd, Hwnd>)
    requires Linked(from, next, s)
    requires forall h :: h in s && h in next ==> h in next' && next'[h] == next[h]
    ensures Linked(from, next', s)
    decreases |s|
  {
    if s != [] {
      assert s[0] in s;
      LinkedFrame(next[from], next, s[1..], next');
    }
  }

  // The viewers of a chain before position k are a walk, even once the k-th has marked itself out.
  lemma {:induction false} ChainIsWalk(from: Hwnd, next: map<Hwnd, Hwnd>, s: seq<Hwnd>, k: nat, gone: Hwnd)
    requires Linked(from, next, s) && 0 < k <= |s|
    requires if k < |s| then gone == s[k] else gone !in s
    requires k == |s| || gone !in s[..k]
    ensures Walk(next[gone := HWND_BROADCAST], s[..k], gone) && s[..k][0] == from
    decreases |s|
  {
    assert s[0] in s && s[0] in s[..k];
    if k > 1 {
      assert s[..k][1..] == s[1..][..k - 1];
      assert k < |s| ==> gone == s[1..][k - 1];
      ChainIsWalk(next[from], next, s[1..], k - 1, gone);
      assert s[..k][1] == s[1] && s[1] in s[..k];
    }
  }

  // What the next properties become when the k-th viewer marks itself out and its predecessor,
  // if it has one, is told to point past it.
  function Unlinked(next: map<Hwnd, Hwnd>, s: seq<Hwnd>, k: nat): map<Hwnd, Hwnd>
    requires k < |s|
  {
    var marked := next[s[k] := HWND_BROADCAST];
    if k == 0 then marked else marked[s[k - 1] := At(s, k + 1)]
  }

  lemma {:induction false} UnlinkKeepsLinked(from: Hwnd, next: map<Hwnd, Hwnd>, s: seq<Hwnd>, k: nat)
    requires Linked(from, next, s) && k < |s|
    ensures Linked(if k == 0 then At(s, 1) else from, Unlinked(next, s, k), Without(s, k))
    decreases |s|
  {
    LinkedAt(from, next, s, k);
    var next' := Unlinked(next, s, k);
    if k == 0 {
      LinkedFrame(next[from], next, s[1..], next');
      assert Without(s, 0) == s[1..];
    } else if k == 1 {
      assert Without(s, 1) == [s[0]] + s[2..] && s[1..][1..] == s[2..];
      assert s[0] !in s[2..];
      LinkedFrame(next[s[1]], next, s[2..], next');
    } else {
      UnlinkKeepsLinked(next[from], next, s[1..], k - 1);
      assert Unlinked(next, s[1..], k - 1) == next';
      assert Without(s, k) == [s[0]] + Without(s[1..], k - 1);
      assert s[k] in s[1..] && s[k - 1] == s[1..][k - 2];
    }
  }

  // The chain and the members that have left account for every window with the property set.
  ghost predicate ChainOk(head: Hwnd, next: map<Hwnd, Hwnd>, chain: seq<Hwnd>, departed: seq<Hwnd>) {
    && Linked(head, next, chain)
    && (forall h :: h in next ==> IsWindow(h) && (next[h] == HWND_BROADCAST <==> h !in chain))
    && NoDup(departed)
    && (forall h :: h in departed ==> h !in chain)
  }

  lemma RunMeans(head: Hwnd, next: map<Hwnd, Hwnd>, chain: seq<Hwnd>, departed: seq<Hwnd>)
    requires ChainOk(head, next, chain, departed)
    ensures Linked(head, next, chain)
    ensures forall i, j :: 0 <= i < j < |departed| ==> departed[i] != departed[j]
    ensures forall h :: h in chain ==> h !in departed
    ensures forall h :: h in next ==> (next[h] == HWND_BROADCAST <==> h !in chain)
  {
    NoDupMeans(departed);
  }

  lemma LastOfChain(from: Hwnd, next: map<Hwnd, Hwnd>, s: seq<Hwnd>, k: nat)
    requires Linked(from, next, s) && k < |s| && s[k] in next && next[s[k]] == NULL
    ensures k + 1 == |s| && AfterPass(s, k + 1, map[]) == s && s[k + 1..] == []
  {
    LinkedAt(from, next, s, k);
    if k + 1 < |s| { LinkedAt(from, next, s, k + 1); }
  }

  // The k-th viewer has unlinked itself and is recorded as departed.
  lemma LeaveKeepsChainOk(head: Hwnd, next: map<Hwnd, Hwnd>, s: seq<Hwnd>, k: nat, departed: seq<Hwnd>)
    requires ChainOk(head, next, s, departed) && k < |s|
    ensures ChainOk(if k == 0 then At(s, 1) else head, Unlinked(next, s, k), Without(s, k), departed + [s[k]])
    ensures Unlinked(next, s, k).Keys == next.Keys
    ensures forall h :: h in next && Unlinked(next, s, k)[h] == HWND_BROADCAST ==>
      h == s[k] || next[h] == HWND_BROADCAST
  {
    UnlinkKeepsLinked(head, next, s, k);
    LinkedAt(head, next, s, k);
    if k > 0 { LinkedAt(head, next, s, k - 1); }
    if k + 1 < |s| { LinkedAt(head, next, s, k + 1); }
    UnlinkMarks(next, s, k);
    DepartedGrows(s, k, departed);
  }

  lemma DepartedGrows(s: seq<Hwnd>, k: nat, departed: seq<Hwnd>)
    requires k < |s| && NoDup(departed) && (forall h :: h in departed ==> h !in s) && s[k] !in Without(s, k)
    ensures NoDup(departed + [s[k]]) && forall h :: h in departed + [s[k]] ==> h !in Without(s, k)
  {
    assert (departed + [s[k]])[..|departed|] == departed;
    WithoutMembers(s, k);
  }

  // After the k-th viewer has left, the sentinel marks exactly the windows outside the rest.
  lemma UnlinkMarks(next: map<Hwnd, Hwnd>, s: seq<Hwnd>, k: nat)
    requires k < |s| && s[k] !in Without(s, k) && At(s, k + 1) != HWND_BROADCAST
    requires k > 0 ==> s[k - 1] in next
    requires s[k] in next
    requires forall h :: h in next ==> (next[h] == HWND_BROADCAST <==> h !in s)
    ensures Unlinked(next, s, k).Keys == next.Keys
    ensures forall h :: h in next ==> (Unlinked(next, s, k)[h] == HWND_BROADCAST <==> h !in Without(s, k))
  {
    var next', t := Unlinked(next, s, k), Without(s, k);
    forall h | h in next ensures next'[h] == HWND_BROADCAST <==> h !in t {
      assert h in s <==> h in t || h == s[k] by { assert s == s[..k] + [s[k]] + s[k + 1..]; }
      if k > 0 && h == s[k - 1] { assert t[k - 1] == h; }
    }
  }

  // Every dialog marked as out has departed and is closing, now or once its sub-dialog returns.
  ghost predicate Closing(next: map<Hwnd, Hwnd>, departed: seq<Hwnd>, ending: set<Hwnd>, deferred: set<Hwnd>) {
    forall h :: h in next && next[h] == HWND_BROADCAST ==> h in departed && (h in ending || h in deferred)
  }

  lemma JoinKeepsChainOk(head: Hwnd, next: map<Hwnd, Hwnd>, s: seq<Hwnd>, departed: seq<Hwnd>, h: Hwnd,
                         ending: set<Hwnd>, deferred: set<Hwnd>)
    requires ChainOk(head, next, s, departed) && Closing(next, departed, ending, deferred)
    requires IsWindow(h) && h !in next && h !in s && h !in departed
    ensures ChainOk(h, next[h := head], [h] + s, departed)
    ensures Closing(next[h := head], departed, ending, deferred - {h}) && head != HWND_BROADCAST
  {
    var next', t := next[h := head], [h] + s;
    LinkedFrame(head, next, s, next');
    assert t[1..] == s;
    if s != [] { LinkedAt(head, next, s, 0); }
    assert forall g :: g in t <==> g == h || g in s;
  }

  // A member is destroyed: it unlinks itself and its property goes away with it.
  lemma DestroyMember(head: Hwnd, next: map<Hwnd, Hwnd>, s: seq<Hwnd>, k: nat, departed: seq<Hwnd>,
                      ending: set<Hwnd>, deferred: set<Hwnd>)
    requires ChainOk(head, next, s, departed) && k < |s| && Closing(next, departed, ending, deferred)
    ensures var next', t := Unlinked(next, s, k) - {s[k]}, Without(s, k);
      && ChainOk(if k == 0 then At(s, 1) else head, next', t, departed + [s[k]])
      && Closing(next', departed + [s[k]], ending, deferred)
  {
    var head', next', t := if k == 0 then At(s, 1) else head, Unlinked(next, s, k), Without(s, k);
    LeaveKeepsChainOk(head, next, s, k, departed);
    LinkedFrame(head', next', t, next' - {s[k]});
  }

  // A window outside the chain is destroyed.
  lemma DestroyOutsider(head: Hwnd, next: map<Hwnd, Hwnd>, s: seq<Hwnd>, departed: seq<Hwnd>, h: Hwnd)
    requires ChainOk(head, next, s, departed) && h !in s
    ensures ChainOk(head, next - {h}, s, departed)
    ensures next[h := HWND_BROADCAST] - {h} == next - {h}
  {
    LinkedFrame(head, next, s, next - {h});
  }

  lemma Assoc(a: seq<Hwnd>, b: seq<Hwnd>, c: seq<Hwnd>)
    ensures (a + b) + c == a + (b + c)
  {
  }

  class Desktop {
    var head: Hwnd
    var next: map<Hwnd, Hwnd>       // the NextCBViewer property of the live dialogs
    var options: map<Hwnd, Options> // of every dialog so far
    var iconUp: set<Hwnd>           // the Change Icon dialog is up
    var clipboardChanged: set<Hwnd> // fClipboardChanged
    var ending: set<Hwnd>           // the message that ends the dialog has been sent or posted

    ghost var chain: seq<Hwnd>
    ghost var notified: seq<Hwnd>   // every viewer that processed a WM_DRAWCLIPBOARD
    ghost var departed: seq<Hwnd>   // every member that called ChangeClipboardChain for itself

    // The chain itself, also while dialogs are inside their forwarding calls.
    ghost predicate ChainInv()
      reads this
    {
      ChainOk(head, next, chain, departed) && next.Keys <= options.Keys
    }

    // Every dialog that has left is closing, or will be when its Change Icon dialog returns.
    ghost predicate ClosingInv()
      reads this
    {
      Closing(next, departed, ending, clipboardChanged * iconUp)
    }

    // Only dialogs that have left are waiting for their Change Icon dialog to return.
    ghost predicate DeferredInv()
      reads this
    {
      forall h :: h in clipboardChanged ==> h in departed
    }

    // Every dialog that ever joined is in the chain or has left it, once.
    ghost predicate Inv()
      reads this
    {
      && ChainInv() && ClosingInv() && DeferredInv()
      && (forall h :: h in options <==> h in chain || h in departed)
    }

    constructor ()
      ensures Inv() && chain == [] && notified == []
    {
      head, next, options := NULL, map[], map[];
      iconUp, clipboardChanged, ending := {}, {}, {};
      chain, notified, departed := [], [], [];
    }

    // GetProp: a window without the property reads as NULL.
    function GetProp(h: Hwnd): Hwnd
      reads this
    {
      if h in next then next[h] else NULL
    }

    // WM_CHANGECBCHAIN, sent along the walk until the predecessor of `gone` takes the replacement.
    method WmChangeCBChain(h: Hwnd, gone: Hwnd, replacement: Hwnd, ghost path: seq<Hwnd>)
      requires IsWindow(gone) && Walk(next, path, gone) && path[0] == h
      modifies this`next
      ensures next == if old(next)[path[|path| - 1]] == gone
                      then old(next)[path[|path| - 1] := replacement] else old(next)
      decreases |path|
    {
      var n := GetProp(h);
      if gone == n {
        next := next[h := replacement];
      } else if n != NULL && n != HWND_BROADCAST {
        WmChangeCBChain(n, gone, replacement, path[1..]);
      }
    }

    // The system call: the head moves if it leaves, otherwise the head is told.
    method ChangeClipboardChain(h: Hwnd, replacement: Hwnd, ghost path: seq<Hwnd>)
      requires IsWindow(h) && (head !in {h, NULL} ==> Walk(next, path, h) && path[0] == head)
      modifies this`head, this`next
      ensures old(head) == h ==> head == replacement && next == old(next)
      ensures old(head) == NULL ==> head == NULL && next == old(next)
      ensures old(head) !in {h, NULL} ==>
        && head == old(head)
        && next == if old(next)[path[|path| - 1]] == h
                   then old(next)[path[|path| - 1] := replacement] else old(next)
    {
      if head == h {
        head := replacement;
      } else if head != NULL {
        WmChangeCBChain(head, h, replacement, path);
      }
    }

    // A member at position k marks itself as out and unlinks itself. With k past the end, the same
    // code runs in a window that never joined: nobody points to it and the walk changes nothing.
    method Unlink(h: Hwnd, following: Hwnd, ghost k: nat)
      requires ChainInv() && k <= |chain|
      requires k < |chain| ==> chain[k] == h && following == At(chain, k + 1)
      requires k == |chain| ==> IsWindow(h) && h !in chain && h !in next
      modifies this`head, this`next
      ensures k < |chain| ==>
        head == (if k == 0 then At(chain, 1) else old(head)) && next == Unlinked(old(next), chain, k)
      ensures k == |chain| ==> head == old(head) && next == old(next)[h := HWND_BROADCAST]
    {
      if k < |chain| { LinkedAt(head, next, chain, k); }
      if k > 0 {
        LinkedAt(head, next, chain, k - 1);
        ChainIsWalk(head, next, chain, k, h);
        assert head in chain[..k];
      }
      next := next[h := HWND_BROADCAST];
      ChangeClipboardChain(h, following, chain[..k]);
    }

    // Unlink, with the record of who is in the chain and who has left.
    method Leave(h: Hwnd, following: Hwnd, ghost k: nat)
      requires ChainInv() && k < |chain| && chain[k] == h && following == At(chain, k + 1)
      modifies this`head, this`next, this`chain, this`departed
      ensures ChainInv() && chain == Without(old(chain), k) && departed == old(departed) + [h]
      ensures next.Keys == old(next.Keys) && h !in chain
      ensures forall g :: g in next && next[g] == HWND_BROADCAST ==> g == h || old(next)[g] == HWND_BROADCAST
    {
      LeaveKeepsChainOk(head, next, chain, k, departed);
      Unlink(h, following, k);
      chain := Without(chain, k);
      departed := departed + [h];
    }

    // The reaction of the viewer at position k once its forwarding call has returned; `c` was the
    // chain when the notification reached it.
    method React(h: Hwnd, following: Hwnd, renewed: set<Hwnd>, ghost c: seq<Hwnd>, ghost k: nat)
      requires ChainInv() && k < |c| && c[k] == h && chain == AfterPass(c, k + 1, options)
      requires following == GetProp(h)
      modifies this`head, this`next, this`chain, this`departed, this`clipboardChanged, this`ending
      ensures ChainInv() && next.Keys == old(next.Keys)
      ensures old(ClosingInv()) ==> ClosingInv()
      ensures chain == AfterPass(c, k, options)
      ensures departed == old(departed) + if Stays(h, options) then [] else [h]
      ensures ending == old(ending) + if Ends(h, options, iconUp, renewed) then {h} else {}
      ensures clipboardChanged == old(clipboardChanged) + if Defers(h, options, iconUp) then {h} else {}
    {
      hide Linked, NoDup, AfterPass, Stayers, Leavers, At;
      PassStep(c, k, options);
      LinkedAt(head, next, chain, k);
      if !options[h].stay {
        Leave(h, following, k);
        if h in iconUp {
          clipboardChanged := clipboardChanged + {h};
        } else {
          ending := ending + {h};
        }
      } else if !options[h].noRefresh && h !in renewed {
        ending := ending + {h};
      }
    }

    // The forwarding call of the viewer at position k, when there is a next viewer.
    method Forward(following: Hwnd, renewed: set<Hwnd>, ghost k: nat)
      requires ChainInv() && k < |chain| && following == At(chain, k + 1)
      modifies this`head, this`next, this`chain, this`departed, this`notified, this`clipboardChanged, this`ending
      ensures ChainInv() && next.Keys == old(next.Keys)
      ensures chain == AfterPass(old(chain), k + 1, options)
      ensures notified == old(notified) + old(chain)[k + 1..]
      ensures departed == old(departed) + Leavers(old(chain)[k + 1..], options)
      ensures ending == old(ending) + Enders(old(chain)[k + 1..], options, iconUp, renewed)
      ensures clipboardChanged == old(clipboardChanged) + Deferrers(old(chain)[k + 1..], options, iconUp)
      ensures old(ClosingInv()) ==> ClosingInv()
      decreases |chain| - k, 0
    {
      if following != NULL {
        LinkedAt(head, next, chain, k + 1);
        WmDrawClipboard(following, renewed, k + 1);
      } else {
        LinkedAt(head, next, chain, k);
        LastOfChain(head, next, chain, k);
      }
    }

    // WM_DRAWCLIPBOARD at the viewer in position k, or at a dialog that is not a member. The
    // viewers before it are still inside their own forwarding calls. `renewed` says which dialogs
    // succeed in getting the new clipboard object and in setting themselves up for it.
    method WmDrawClipboard(h: Hwnd, renewed: set<Hwnd>, ghost k: nat)
      requires GetProp(h) != HWND_BROADCAST ==> ChainInv() && k < |chain| && chain[k] == h
      modifies this`head, this`next, this`chain, this`departed, this`notified, this`clipboardChanged, this`ending
      ensures old(GetProp(h)) == HWND_BROADCAST ==> unchanged(this)
      ensures old(GetProp(h)) != HWND_BROADCAST ==>
        && ChainInv() && next.Keys == old(next.Keys)
        && chain == AfterPass(old(chain), k, options)
        && notified == old(notified) + old(chain)[k..]
        && departed == old(departed) + Leavers(old(chain)[k..], options)
        && ending == old(ending) + Enders(old(chain)[k..], options, iconUp, renewed)
        && clipboardChanged == old(clipboardChanged) + Deferrers(old(chain)[k..], options, iconUp)
        && (old(ClosingInv()) ==> ClosingInv())
      decreases if GetProp(h) == HWND_BROADCAST then 0 else |chain| - k, 1
    {
      hide Linked, NoDup, Closing, AfterPass, Stayers, Leavers, Enders, Deferrers, Stays, Ends, Defers;
      var following := GetProp(h);
      if following == HWND_BROADCAST { return; }
      ghost var c := chain;
      LinkedAt(head, next, chain, k);
      PassStep(c, k, options);
      Assoc(notified, [h], c[k + 1..]);
      Assoc(departed, Leavers(c[k + 1..], options), if Stays(h, options) then [] else [h]);
      EndStep(c, k, options, iconUp, renewed, ending, clipboardChanged);
      notified := notified + [h];
      Forward(following, renewed, k);
      var refreshed := GetProp(h); // the next viewer may have left
      React(h, refreshed, renewed, c, k);
    }

    // The end of FPasteSpecialInit: the notification that SetClipboardViewer sends to its new head
    // finds the sentinel still in place.
    method Join(h: Hwnd, o: Options, renewed: set<Hwnd>)
      requires Inv() && IsWindow(h) && h !in options
      modifies this
      ensures Inv() && chain == [h] + old(chain) && next[h] == old(head)
      ensures notified == old(notified) && departed == old(departed) && options == old(options)[h := o]
      ensures ending == old(ending) && clipboardChanged == old(clipboardChanged) - {h}
    {
      hide Linked, NoDup, ChainOk, Closing, AfterPass, Stayers, Leavers, Enders, Deferrers;
      JoinKeepsChainOk(head, next, chain, departed, h, ending, clipboardChanged * iconUp);
      AccountAfterJoin(chain, departed, options, h, o);
      options := options[h := o];
      next := next[h := HWND_BROADCAST];
      // SetClipboardViewer
      var oldHead := head;
      head := h;
      WmDrawClipboard(h, renewed, 0);
      // back in FPasteSpecialInit
      next := next[h := oldHead];
      clipboardChanged := clipboardChanged - {h};
      assert next == old(next)[h := oldHead];
      assert clipboardChanged * iconUp == old(clipboardChanged * iconUp) - {h};
      chain := [h] + chain;
    }

    // The system tells the head of a new clipboard content.
    method ClipboardChange(renewed: set<Hwnd>)
      requires Inv()
      modifies this`head, this`next, this`chain, this`departed, this`notified, this`clipboardChanged, this`ending
      ensures Inv()
      ensures chain == Stayers(old(chain), options)
      ensures notified == old(notified) + old(chain)
      ensures departed == old(departed) + Leavers(old(chain), options)
      ensures ending == old(ending) + Enders(old(chain), options, iconUp, renewed)
      ensures clipboardChanged == old(clipboardChanged) + Deferrers(old(chain), options, iconUp)
    {
      hide Linked, NoDup, Closing, AfterPass, Stayers, Leavers, Enders, Deferrers;
      WholePass(chain, options);
      AccountAfterPass(chain, departed, options);
      DeferrersLeave(chain, options, iconUp);
      HeadOfChain(head, next, chain);
      if head != NULL {
        LinkedAt(head, next, chain, 0);
        WmDrawClipboard(head, renewed, 0);
      } else {
        EmptyPass(options, iconUp, renewed);
      }
    }

    // WM_DESTROY, for a member (at position k), for a dialog that has left already, or for one
    // whose initialisation failed before it joined.
    method WmDestroy(h: Hwnd, ghost k: nat)
      requires Inv() && IsWindow(h) && (h in next || h !in options)
      requires if h in chain then k < |chain| && chain[k] == h else k == |chain|
      modifies this`head, this`next, this`chain, this`departed
      ensures Inv() && h !in next
      ensures k == |old(chain)| ==> chain == old(chain) && departed == old(departed) && next == old(next) - {h}
      ensures k < |old(chain)| ==> chain == Without(old(chain), k) && departed == old(departed) + [h]
    {
      if k < |chain| {
        LinkedAt(head, next, chain, k);
        DestroyMember(head, next, chain, k, departed, ending, clipboardChanged * iconUp);
        WithoutMembers(chain, k);
      } else {
        DestroyOutsider(head, next, chain, departed, h);
      }
      var following := GetProp(h);
      if following != HWND_BROADCAST {
        Unlink(h, following, k);
      }
      next := next - {h};
      if k < |chain| {
        chain := Without(chain, k);
        departed := departed + [h];
      }
    }

    method ChangeIconUp(h: Hwnd)
      requires Inv()
      modifies this`iconUp
      ensures Inv() && iconUp == old(iconUp) + {h}
    {
      iconUp := iconUp + {h};
    }

    // The Change Icon dialog returns: a close that was deferred happens now.
    method ChangeIconReturn(h: Hwnd)
      requires Inv()
      modifies this`iconUp, this`ending
      ensures Inv() && iconUp == old(iconUp) - {h}
      ensures h in next && next[h] == HWND_BROADCAST ==> h in ending
      ensures ending == old(ending) + if h in clipboardChanged then {h} else {}
      ensures h !in departed ==> ending == old(ending)
    {
      iconUp := iconUp - {h};
      if h in clipboardChanged {
        ending := ending + {h};
      }
    }

    method Perform(a: Action)
      requires Inv()
      modifies this
      ensures Inv() && old(departed) <= departed && old(notified) <= notified
      ensures forall h :: h in old(options) ==> h in options && options[h] == old(options)[h]
      ensures a.Change? ==>
        && chain == Stayers(old(chain), options) && notified == old(notified) + old(chain)
        && ending == old(ending) + Enders(old(chain), options, iconUp, a.renewed)
        && clipboardChanged == old(clipboardChanged) + Deferrers(old(chain), options, iconUp)
      ensures !a.Change? ==> notified == old(notified) && clipboardChanged <= old(clipboardChanged)
      ensures a.JoinChain? && IsWindow(a.h) && a.h !in old(options) ==>
        chain == [a.h] + old(chain) && departed == old(departed) && a.h in options && options[a.h] == a.options
      ensures a.Destroy? && a.h in old(next) ==> a.h !in next && a.h !in chain
      ensures a.Destroy? && a.h !in old(chain) ==> chain == old(chain)
      ensures a.Destroy? && a.h in old(chain) ==>
        exists k: nat :: k < |old(chain)| && old(chain)[k] == a.h && chain == Without(old(chain), k)
      ensures a.IconUp? || a.IconReturn? ==> chain == old(chain) && (a.h in iconUp <==> a.IconUp?)
      ensures a.IconReturn? ==> ending == old(ending) + if a.h in clipboardChanged then {a.h} else {}
      ensures a.JoinChain? || a.Destroy? || a.IconUp? ==> ending == old(ending)
    {
      hide Linked, Stayers, Enders, Deferrers, Closing, NoDup;
      match a
      case JoinChain(h, o, renewed) =>
        if IsWindow(h) && h !in options { Join(h, o, renewed); }
      case Change(renewed) => ClipboardChange(renewed);
      case Destroy(h) =>
        ghost var k: nat := |chain|;
        if h in chain {
          k :| 0 <= k < |chain| && chain[k] == h;
          LinkedAt(head, next, chain, k);
        }
        if IsWindow(h) && (h in next || h !in options) { WmDestroy(h, k); }
      case IconUp(h) => ChangeIconUp(h);
      case IconReturn(h) => ChangeIconReturn(h);
    }

    /** Whole runs: the chain stays linked through exactly the members, and each dialog that ever
        joined is still in it or has left it exactly once. */
    method Run(script: seq<Action>)
      requires Inv()
      modifies this
      ensures Inv()
      ensures Linked(head, next, chain)
      ensures forall i, j :: 0 <= i < j < |departed| ==> departed[i] != departed[j]
      ensures forall h :: h in options <==> h in chain || h in departed
      ensures forall h :: h in chain ==> h !in departed
      ensures forall h :: h in next ==> (next[h] == HWND_BROADCAST <==> h !in chain)
      ensures old(ending) <= ending
      ensures forall h :: h in ending && h !in old(ending + clipboardChanged) ==> Caused(script, |script|, h, options)
      ensures old(clipboardChanged) == {} && (forall a :: a in script ==> !a.Change?) ==> ending == old(ending)
    {
      hide Linked, Stayers, Enders, Deferrers, Closing, ChainOk, NoDup;
      ghost var start := ending + clipboardChanged;
      for i := 0 to |script|
        invariant Inv() && old(ending) <= ending && AllCaused(script, i, ending + clipboardChanged - start, options)
      {
        ghost var was, optionsWas, c := ending + clipboardChanged, options, chain;
        Perform(script[i]);
        ghost var now := ending + clipboardChanged;
        if script[i].Change? {
          ChangeCauses(c, options, iconUp, script[i].renewed);
        }
        CausedStep(script, i, was - start, now - start, optionsWas, options);
      }
      RunMeans(head, next, chain, departed);
    }
  }

  datatype Action = JoinChain(h: Hwnd, options: Options, renewed: set<Hwnd>)
                  | Change(renewed: set<Hwnd>)
                  | Destroy(h: Hwnd)
                  | IconUp(h: Hwnd)
                  | IconReturn(h: Hwnd)
}
