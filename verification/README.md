# Models of the OLE dialog library and of parts of ole32

Dafny models of the pieces of the two libraries that hold real state: caches, message protocols, lock-free and
double-checked initialisation, growable buffers, and the string algorithms under the dialogs. Each model follows the
code branch by branch; the theorems say what the code achieves over all inputs, or over every run. `dafny verify
dfyconfig.toml` checks the whole project.

- `PackedStrings`, `ClassRegistry`, `StringCache`, `InsertObject`: the Insert Object string cache. Strings are packed
  into one byte block that grows by doubling, with an offset table. The dialog fills the cache while it scans the
  registry key by key and replays it later, guarded by a one-shot registry watch, the call's flags and the list type.
  Other programs may change the registry before any step, also in the middle of a scan. Every replay in every run is
  shown to be coherent; a second call is shown to replay exactly when nothing that the watch or the call parameters
  cover has changed; and two runs exhibit the inputs that they do not cover.
- `ClipboardChain`: the clipboard-viewer chain that the Paste Special dialogs keep by messages, a linked list spread
  over windows from which dialogs remove themselves while a notification is still walking it.
- `Catalog`, `ProcessSecret`: state machines of any number of threads, one atomic step at a time, for the lock-free
  catalog globals and for the double-checked process secret.
- `ActivationStream`: the growable stream against a reference file that remembers the last value written at each
  position, and the aligned clone.
- `LongPath`: the expansion of 8.3 components into long names, with the two-call protocol for the buffer size.
- `LinkNames`, `LinksDialog`: the differing prefixes of two link names, the bulk relink they feed, and the links list
  box, a sorted list that is refreshed by deleting and re-inserting records and cut by cancelling links.
- `TextBuffer`: the fixed debug buffer with flushes, snapshots and reverts.
- `ChopText`, `FormatStrings`, `SizeFormat`: path abbreviation, bounded formatting and short size formats.

Conventions. A C string is a sequence of 16-bit characters without NUL (`IsText`); where a function works in place on
a buffer the model has an array and says that it *holds* a string. 32-bit fields wrap where the code can make them
wrap, with one exception: the sum by which `ActivationStream::Write` checks a growth (ole32/actprops/actstrm.cxx:131)
is taken without a bound, as the 64-bit field it is stored in suggests. Memory, files, COM calls, the registry, the list box and the answers of the user are parameters: an allocation
is a boolean, a lookup a map or a function, a container's answer membership in a set.

Where the code and its comments disagree the model follows the code:

- The header comment of `UFillClassList` promises the number of strings added. The fill branch returns the number of
  `RegEnumKey` calls, the failing last one included (ole2ui32/insobj.cpp:1104).
- `CTextBufferA::Flush` says that it tags on a NUL, but writes it one cell after the position
  (ole32/common/buffer.hxx:161), so the byte at the position is output too unless it happens to be NUL. `FlushIsExact`
  says exactly when a flush is right; `FlushAgainRepeats` and `RevertedByteIsFlushed` give the inputs on which it is
  not. The flush of a full buffer writes past the last cell; the model has a further cell for the padding there.
- The comments of `CTextBufferA` promise that a full buffer is flushed. The last cell, where its text would have to
  end, is written neither by the constructor (ole32/common/buffer.hxx:86-90) nor by an insertion, so over memory with
  another byte than NUL there each full flush outputs that byte as well (`FirstFill`), until a flush or a revert at
  position 1023 clears it (`LastCell`). `RunConservesIff` states conservation with this condition.
- `CTextBufferA::Revert` promises to do nothing once the buffer was flushed. The flush counter is a WORD, so it reverts
  again after a multiple of 65536 flushes (`RevertIffUnflushed`, `RevertAfterWrap`). `Clear` sets the position alone, so
  a snapshot taken before it is still reverted to (`RevertAfterClear`); in the repository only `Flush` calls it. The
  runs of `RunConservesIff` therefore leave it to the callers to revert to no snapshot that a clear or a revert to an
  older one has passed, unless the buffer was flushed since, which makes the revert do nothing (`Proper`).
- The comment of `DiffPrefix` speaks of upper-case prefixes; the prefixes are copied in the case of the input.
- `CancelLink` returns an uninitialised result when the first question is answered no (ole2ui32/links.cpp:772); the
  model's result is then `None`.
- `ActivationStream::Seek` refuses relative moves before the start, except the one by LONG_MIN, whose negation
  overflows (`SeekExact`).
- The loop of `ShortSizeFormat64` is bounded by the byte size of its unit table. The bound never takes effect, and
  sizes from 1000 units of the last order on index past the table (`OrderInTable`).

## Model

| member | source | states |
|---|---|---|
| PackedStrings.DecodePack | ole2ui32/strcache.cpp:408-415 | what a reader finds at the i-th offset of the packed block is the i-th string, whatever bytes follow |
| PackedStrings.OffsetStep | ole2ui32/strcache.cpp:368-394 | offsets start at 0 and rise by the size of each string with its terminator |
| ClassRegistry.CandidateIsText | ole2ui32/insobj.cpp:1107-1309 | every name and class identifier that passes the scan's tests is a string that fits its registry buffer, so every listed string is far shorter than the initial block |
| ClassRegistry.CandidateExact | ole2ui32/insobj.cpp:1107-1326 | the tests of the loop body let through exactly what the list is to offer: a class of the kind asked for with a readable name, a well-formed identifier that is not excluded and, if asked, a server file that exists, or an OLE 1.0 server |
| ClassRegistry.ScanSound | ole2ui32/insobj.cpp:1098-1353 | each string of the list stands for a key that offers it, and no string before it starts with its title |
| ClassRegistry.ScanComplete | ole2ui32/insobj.cpp:1098-1353 | whatever a key offers is listed, or a string that starts with its title is |
| ClassRegistry.ListsOneKind | ole2ui32/insobj.cpp:1139-1174 | a list of controls shows no other class and a list of objects no control, and no insertable ProgId is in both |
| ClassRegistry.Registry.NotifyChange | ole2ui32/strcache.cpp:136-141 | registering arms the one-shot watch if the system grants it |
| ClassRegistry.Registry.Poll | ole2ui32/strcache.cpp:304-318 | a zero-timeout wait reports a signalled event and consumes it |
| ClassRegistry.Registry.Apply | ole2ui32/strcache.cpp:317-324 | a change under CLSID fires an armed watch once and disarms it; a change elsewhere under HKEY_CLASSES_ROOT does not fire it |
| StringCache.HoldsAfterGrowth | ole2ui32/strcache.cpp:202-209 | a reallocation that keeps the old contents keeps the representation of the string list |
| StringCache.HoldsAfterAdd | ole2ui32/strcache.cpp:383-394 | one string written at the last offset, with the next offset after it, represents the list extended by that string |
| StringCache.StringCache.Init | ole2ui32/strcache.cpp:110-149 | the cache is usable exactly if the event, the key, the notification and the memory were all granted; it starts empty with the watch armed |
| StringCache.StringCache.AllocateTables | ole2ui32/strcache.cpp:190-195 | the first expansion gives both tables their initial size and the offset 0 |
| StringCache.StringCache.ExpandStringTable | ole2ui32/strcache.cpp:187-210 | one doubling keeps every stored byte; it fails without memory and when the 32-bit size would wrap to 0 |
| StringCache.StringCache.ExpandOffsetTable | ole2ui32/strcache.cpp:223-253 | one doubling keeps every stored offset |
| StringCache.StringCache.NewCall | ole2ui32/strcache.cpp:268-281 | a call with the same flags and the same number of excluded classes keeps the contents; any other call empties them |
| StringCache.StringCache.IsUptodate | ole2ui32/strcache.cpp:293-337 | true exactly for a non-empty cache whose event has not fired; a fired event is consumed and the watch registered again, or the cache given up |
| StringCache.StringCache.AddString | ole2ui32/strcache.cpp:351-396 | the string is appended exactly if the growth it needs, at most one doubling of each table, succeeds; otherwise the cache is marked unusable and the contents stay |
| StringCache.StringCache.StoreString | ole2ui32/strcache.cpp:383-395 | with room for it, storing a string appends it to the list represented |
| StringCache.CopyText | ole2ui32/strcache.cpp:383 | the copy writes exactly the encoded string with its terminator and leaves every other byte |
| StringCache.StringCache.NextString | ole2ui32/strcache.cpp:408-415 | successive calls deliver the strings added since the last flush, in order, and then NULL for ever |
| StringCache.StringCache.FlushCache | ole2ui32/strcache.cpp:440-445 | the cache is empty and still sound |
| StringCache.StringCache.ResetEnumerator | ole2ui32/strcache.cpp:426-429 | the enumeration starts again at the first string |
| InsertObject.ReplayIsFreshScan | ole2ui32/insobj.cpp:1053-1066 | a coherent replay lists exactly the strings, in order, that a fresh scan for the same request would list, if no input outside the watch changed |
| InsertObject.StaleAfterProgIdRemoval | ole2ui32/strcache.cpp:119-121 | the watch covers only CLSID: an actual run of two equal calls, with the one ProgId removed between them, replays a class that a fresh scan would not list |
| InsertObject.StaleAfterOtherExclusion | ole2ui32/strcache.cpp:270-271 | only the number of excluded classes is compared: an actual run of two calls that exclude one class each replays the class that the second excludes |
| InsertObject.Enumerate | ole2ui32/insobj.cpp:1061-1066 | reset followed by calls until NULL yields exactly the cached list |
| InsertObject.Dialog.ReplayCache | ole2ui32/insobj.cpp:1053-1066 | the replay branch lists the cached strings, which are what the fill that loaded them listed, and is coherent with that fill |
| InsertObject.Dialog.Interrupt | ole2ui32/insobj.cpp:1098-1106 | any number of registry changes between two steps of a scan keep what the scan has established, or fire the watch |
| InsertObject.Dialog.InterruptOnce | ole2ui32/insobj.cpp:1098-1106 | the same for one change |
| InsertObject.Dialog.ScanNext | ole2ui32/insobj.cpp:1104-1106 | an enumeration call ends the scan exactly when no key is left at that moment |
| InsertObject.Dialog.ScanKey | ole2ui32/insobj.cpp:1107-1353 | one key of the scan adds to the list box what its candidate calls for, and to a usable cache the same; with the growth granted the cache stays usable |
| InsertObject.Dialog.AddEntry | ole2ui32/insobj.cpp:1333-1346 | a string that passed goes to the list box and to a usable cache, which is given up only if growth fails |
| InsertObject.Dialog.ScanKeys | ole2ui32/insobj.cpp:1096-1353 | the scan ends, with every key of the registry of that moment read, however the registry changes meanwhile; the list is what one call after another finds in the registry as it is then; with the growth granted the cache stays usable |
| InsertObject.Dialog.FillFromRegistry | ole2ui32/insobj.cpp:1069-1359 | a fill leaves a sound cache; without a change meanwhile the list is the scan of the registry; a cache that is still usable holds the list, and with the growth granted it is still usable |
| InsertObject.Dialog.ScanRegistry | ole2ui32/insobj.cpp:1096-1359 | the same, from a cleared list box and an empty cache |
| InsertObject.Dialog.FillIsSound | ole2ui32/insobj.cpp:1071-1078 | after a scan the cache is coherent, or the event is already signalled |
| InsertObject.Dialog.ClearForFill | ole2ui32/insobj.cpp:1049-1078 | a fill starts from an empty list box and, if the cache is usable, an empty cache |
| InsertObject.Dialog.UFillClassList | ole2ui32/insobj.cpp:1036-1365 | the replay branch is taken exactly for a usable, non-empty cache with no event, and lists its contents; otherwise a scan fills the list, and the cache with it, from the registry as each call finds it; the event is consumed exactly if the cache was not empty; the number returned counts the failing call |
| InsertObject.Dialog.CheckCache | ole2ui32/insobj.cpp:1053 | the guard of the replay branch: what it leaves of the cache, the event and the watch |
| InsertObject.Dialog.URefillClassList | ole2ui32/insobj.cpp:982-1013 | a list not yet filled is listed by a replay or a scan, as the cache stands, in its own list box, and it alone counts as filled then; one already filled is left alone, with the registry, the cache and the other box |
| InsertObject.Dialog.MarkFilled | ole2ui32/insobj.cpp:1003-1008 | only the list of the current type counts as filled, and its box shows what was listed |
| InsertObject.Dialog.SetListType | ole2ui32/insobj.cpp:1395-1406 | a cache loaded for the other list type is emptied; any other keeps its contents |
| InsertObject.Dialog.SwitchListType | ole2ui32/insobj.cpp:1391-1406 | the recorded list type is that of the strings in the cache, whatever is selected, and the contents survive unless the list type changes |
| InsertObject.Dialog.FToggleObjectSource | ole2ui32/insobj.cpp:1385-1578 | selecting a list type fills its list if that is not filled, by a replay exactly if the cache survives the switch and is up to date; the other list keeps its state and its box; an option already selected changes nothing |
| InsertObject.Dialog.SelectSource | ole2ui32/insobj.cpp:1391-1503 | the part of it that a new option runs through, with the same effect on both lists |
| InsertObject.Dialog.Open | ole2ui32/insobj.cpp:171-176 | a new call shows its list, and exactly that list counts as filled: a replay exactly if flags, number of exclusions and list type repeat and the cache is up to date, and a scan otherwise |
| InsertObject.Dialog.TellCache | ole2ui32/insobj.cpp:169-172 | the contents survive exactly if the flags and the number of exclusions repeat |
| InsertObject.Dialog.StartDialog | ole2ui32/insobj.cpp:920-923 | the new dialog has nothing selected and nothing filled, and what the cache still holds was loaded under the same verify option |
| InsertObject.Dialog.CallTwice | ole2ui32/insobj.cpp:1053-1078 | the second of two calls with the same flags and as many exclusions replays what the first listed, unless CLSID changed between them; then it scans afresh |
| InsertObject.Dialog.CallAndToggle | ole2ui32/insobj.cpp:1494-1503 | after a call for one list type, the first toggle to the other shows what a scan for it lists, whatever the cache held; toggling back lists nothing and finds both boxes as they were |
| InsertObject.Dialog.Environment | ole2ui32/strcache.cpp:304-324 | a change by another program between two steps keeps the invariant |
| InsertObject.Dialog.AddControl | ole2ui32/insobj.cpp:669-672 | adding a control lists the current type again, by a replay or a scan as the cache stands, and the other type counts as not filled |
| InsertObject.Dialog.Perform | ole2ui32/insobj.cpp:1385-1578 | each kind of step lists what it should, has its effect on both list boxes, the dialog or the registry, keeps the invariant and forgets no replay |
| InsertObject.Dialog.Run | ole2ui32/insobj.cpp:1053-1078 | in every interleaving of calls, toggles, fills, additions and registry changes, every replay is coherent: it lists what the fill listed, and, where no input outside the watch changed, what a fresh scan would list; a list type that is selected is filled |
| ClipboardChain.StayersExact | ole2ui32/pastespl.cpp:299-326 | the chain after a pass is the old one minus exactly the dialogs without PSF_STAYONCLIPBOARDCHANGE |
| ClipboardChain.EndersExact | ole2ui32/pastespl.cpp:299-348 | a pass ends exactly the leavers whose Change Icon dialog is not up and the refreshing stayers that cannot get the new object or set themselves up for it, and puts off exactly the other leavers |
| ClipboardChain.DeferrersLeave | ole2ui32/pastespl.cpp:299-317 | only leavers are put off |
| ClipboardChain.LinkedAt | ole2ui32/pastespl.cpp:284-296 | the property of each member is the next member, or NULL for the last, and no member occurs twice |
| ClipboardChain.PassStep | ole2ui32/pastespl.cpp:290-302 | once the viewers behind it have reacted, a viewer still stands at its place, and its own reaction gives the chain after the pass from there |
| ClipboardChain.UnlinkKeepsLinked | ole2ui32/pastespl.cpp:301-302 | when a viewer marks itself out and its predecessor points past it, following the next pointers visits exactly the others, in order, to NULL |
| ClipboardChain.ChainIsWalk | ole2ui32/pastespl.cpp:352-360 | the removal message reaches the predecessor of a viewer that has already marked itself out, without passing the mark |
| ClipboardChain.LeaveKeepsChainOk | ole2ui32/pastespl.cpp:299-302 | a leaver is out of the chain, recorded once, and is the only window newly marked with HWND_BROADCAST |
| ClipboardChain.JoinKeepsChainOk | ole2ui32/pastespl.cpp:842-843 | a new head in front of the chain keeps every pointer and every mark right |
| ClipboardChain.DestroyMember | ole2ui32/pastespl.cpp:266-273 | destroying a member keeps the rest of the chain linked |
| ClipboardChain.DestroyOutsider | ole2ui32/pastespl.cpp:267-273 | destroying a window outside the chain leaves the chain linked |
| ClipboardChain.Desktop.WmChangeCBChain | ole2ui32/pastespl.cpp:352-360 | of all the viewers on the walk, only the predecessor of the leaver is changed |
| ClipboardChain.Desktop.ChangeClipboardChain | ole2ui32/pastespl.cpp:302 | the system call: the head moves on if it leaves; otherwise the predecessor points past the leaver |
| ClipboardChain.Desktop.Unlink | ole2ui32/pastespl.cpp:267-272 | a member unlinks itself; run by a window that never joined, the same code changes nobody else |
| ClipboardChain.Desktop.Leave | ole2ui32/pastespl.cpp:299-302 | a leaver is gone from the chain and recorded, and nobody else is marked |
| ClipboardChain.Desktop.Forward | ole2ui32/pastespl.cpp:290-297 | the forwarding call notifies every viewer behind once, before the forwarder reacts |
| ClipboardChain.Desktop.WmDrawClipboard | ole2ui32/pastespl.cpp:282-350 | from the viewer that gets it on, one notification reaches every viewer exactly once in order, and leaves in the chain exactly those that stay, although the leavers unlink while their predecessors are still forwarding; a window outside the chain ignores it |
| ClipboardChain.Desktop.React | ole2ui32/pastespl.cpp:299-348 | a viewer that does not stay leaves and closes, at once or when its Change Icon dialog returns; one that stays closes only if it refreshes and cannot get the new object or set itself up for it |
| ClipboardChain.Desktop.Join | ole2ui32/pastespl.cpp:841-845 | the new dialog is the head; the notification that its own registration triggers closes and notifies nobody |
| ClipboardChain.Desktop.ClipboardChange | ole2ui32/pastespl.cpp:282-350 | a clipboard change notifies the whole chain once, leaves its stayers in order, and ends or puts off exactly the dialogs it should |
| ClipboardChain.Desktop.WmDestroy | ole2ui32/pastespl.cpp:242-277 | a dialog destroyed as a member leaves once; one that left before, or never joined, leaves no trace |
| ClipboardChain.Desktop.ChangeIconReturn | ole2ui32/pastespl.cpp:392-400 | the close that was put off until the Change Icon dialog returns does happen, and no dialog that is still in the chain is closed by it |
| ClipboardChain.Desktop.Perform | ole2ui32/pastespl.cpp:242-360 | each step has its effect on the chain, on who was notified and on which dialogs end, and keeps the invariant |
| ClipboardChain.Desktop.Run | ole2ui32/pastespl.cpp:282-360 | in every run the next pointers lead from the head through each member once to NULL, HWND_BROADCAST marks exactly the live dialogs outside the chain, and each dialog that joined is a member or has left exactly once; every dialog that ends was a leaver, or a refreshing stayer that failed to, in some clipboard change of the script, so that a script without one ends none |
| Catalog.ReferencesConserved | ole32/common/catinit.cxx:25-127 | in every interleaving references created less those released are one for a set global and one for each thread that holds one |
| Catalog.NeverReleasedTwice | ole32/common/catinit.cxx:54-85 | every reference created is released, in the global or with one thread: in one of these places, once |
| Catalog.HeldIsOwned | ole32/common/catinit.cxx:56-60 | what a thread is about to store or release nobody else has |
| Catalog.SetGlobalIsStable | ole32/common/catinit.cxx:54-127 | over any schedule from any state a set global keeps its value as long as no uninitialisation exchanges it |
| Catalog.OkFindsBothSet | ole32/common/catinit.cxx:27-30 | a call that returns S_OK finds both globals set, unless an uninitialisation ran during it |
| Catalog.OkWithEmptyGlobal | ole32/common/catinit.cxx:25-127 | the proviso is needed: a schedule of two threads in which an uninitialisation between the two stores of a call lets it return S_OK with a global empty |
| Catalog.UninitializedMadeBoth | ole32/common/catinit.cxx:108-127 | in every interleaving an uninitialisation that has ended has exchanged both globals |
| Catalog.UninitializeAlone | ole32/common/catinit.cxx:108-127 | one that runs alone, from any state, leaves both globals empty and has released exactly what they held |
| Catalog.InitializeAlone | ole32/common/catinit.cxx:25-88 | an initialisation that runs alone, from any state: with both globals set it returns S_OK and creates nothing; otherwise it stores or releases what it creates and returns the failure it meets |
| Catalog.QuietMeansOneReference | ole32/common/catinit.cxx:54-127 | with no call in flight the only live reference is the one in the global |
| Catalog.StepKeepsConserved | ole32/common/catinit.cxx:25-127 | every atomic step, failures of the creation helper included, keeps the account of each global |
| Catalog.StepKeepsOthers | ole32/common/catinit.cxx:54-85 | a step of one thread takes from no other what that one has established |
| Catalog.StepKeepsMover | ole32/common/catinit.cxx:25-88 | the moving thread establishes what its next place in the code relies on |
| Catalog.RunKeepsInv | ole32/common/catinit.cxx:25-127 | the accounts, the threads' knowledge and the exchanges made at each place of an uninitialisation are right in every reachable state of any number of threads |
| ProcessSecret.CreatedAtMostOnce | ole32/common/secret.cxx:41-52 | in every interleaving, with failing and retried creations, at most one GUID is created |
| ProcessSecret.SuccessDeliversTheSecret | ole32/common/secret.cxx:37-61 | every call that returns S_OK has delivered that GUID |
| ProcessSecret.FailsOnlyItself | ole32/common/secret.cxx:37-61 | a call fails only by its own attempt to create the GUID, whatever the other threads do |
| ProcessSecret.GrantedDelivers | ole32/common/secret.cxx:37-61 | a thread whose attempts all succeed gets the secret from each of its calls, in every interleaving |
| ProcessSecret.SecretStays | ole32/common/secret.cxx:42-51 | once there is a secret it is never replaced |
| ProcessSecret.ReadyCallDelivers | ole32/common/secret.cxx:42-60 | a call that begins then delivers it without the lock, also while another thread holds that |
| ProcessSecret.LateCallDelivers | ole32/common/secret.cxx:54-61 | so does a call whose own attempt failed, if another thread has created the secret in the meantime |
| ProcessSecret.FirstCallAlone | ole32/common/secret.cxx:37-61 | a first call that runs alone delivers the GUID it creates and leaves the lock free; if the creation fails it delivers nothing and reports that |
| ProcessSecret.DeliveredIsTheSecret | ole32/common/secret.cxx:54-58 | what any call delivers is that GUID, even if the call reports the failure of its own attempt |
| ProcessSecret.VerifiesExactlyTheSecret | ole32/common/secret.cxx:25-35 | verification accepts exactly the secret of the process |
| ProcessSecret.StepKeepsInv | ole32/common/secret.cxx:37-61 | every atomic step keeps the lock, the flag and the GUID consistent with every thread |
| ProcessSecret.RunKeepsInv | ole32/common/secret.cxx:37-61 | that consistency holds in every reachable state |
| ActivationStream.SeekExact | ole32/actprops/actstrm.cxx:186-259 | a seek is refused exactly for an unknown origin or a target before the start (one overflowing move excepted), and an accepted one lands soundly on its target exactly if that lies in the data |
| ActivationStream.SeekLands | ole32/actprops/actstrm.cxx:186-256 | accepted seeks land the given distance after the start, from the cursor, or before the end of the buffer |
| ActivationStream.SeekPastTheEnd | ole32/actprops/actstrm.cxx:214-217 | a seek past the end is accepted and leaves the stream in a state that reads and writes do not expect |
| ActivationStream.ReadExact | ole32/actprops/actstrm.cxx:95-102 | a read keeps the stream sound exactly if its end fits a LONG |
| ActivationStream.WriteExact | ole32/actprops/actstrm.cxx:124-181 | a write keeps the stream sound exactly if it is refused or its end fits a LONG |
| ActivationStream.WriteGranted | ole32/actprops/actstrm.cxx:123-152 | a write is granted exactly if it fits, or if the stream owns its buffer, the new size is below 4 GB and there is memory; only a borrowed buffer makes a fault |
| ActivationStream.PiecesAreReadBack | ole32/actprops/actstrm.cxx:95-182 | from the constructor on, with memory granted, whatever is written in however many pieces is read back as one after a seek to the start |
| ActivationStream.WriteAllWrites | ole32/actprops/actstrm.cxx:123-182 | several writes in a row put their concatenation at the cursor and keep what is before it |
| ActivationStream.GrantedWritesSucceed | ole32/actprops/actstrm.cxx:123-182 | in a run of calls the class is made for, with memory granted, no write to a stream that owns its buffer fails |
| ActivationStream.WriteSimulates | ole32/actprops/actstrm.cxx:124-181 | a successful write, with or without reallocation, changes in the reference exactly the bytes written |
| ActivationStream.StepSimulates | ole32/actprops/actstrm.cxx:83-259 | each operation does to the stream what it does to the reference file; a failed write does nothing |
| ActivationStream.RunSimulates | ole32/actprops/actstrm.cxx:83-259 | after every run each byte written has its last-written value, through all reallocations, the cursor is in the data and the high-water mark covers every write |
| ActivationStream.ReadDeliversLastWritten | ole32/actprops/actstrm.cxx:95-107 | a read delivers the last-written value of each byte it covers |
| ActivationStream.ReadBack | ole32/actprops/actstrm.cxx:83-184 | writing, seeking back and reading returns what was written |
| ActivationStream.CloneFitsExactly | ole32/actprops/actstrm.cxx:331-355 | the enlarged buffer holds the shifted copy at every address exactly if its 32-bit size does not wrap |
| ActivationStream.AlignedCursor | ole32/actprops/actstrm.cxx:350-354 | for a power of two the shifted cursor is a multiple of the alignment |
| ActivationStream.MaskIsRemainder | ole32/actprops/actstrm.cxx:350-353 | masking with a power of two less one leaves the remainder |
| ActivationStream.PowerByMask | ole32/actprops/actstrm.cxx:350-353 | exactly the powers of two have no bit in common with their predecessor |
| ActivationStream.AlignedExactly | ole32/actprops/actstrm.cxx:350-354 | the masked shift aligns the cursor at every address if and only if the alignment is a power of two |
| ActivationStream.ActivationStream.constructor | ole32/actprops/actstrm.hxx:144-150 | a new stream owns a buffer of the requested size, or none without memory, with the cursor at its start |
| ActivationStream.ActivationStream.Read | ole32/actprops/actstrm.cxx:83-110 | delivers the bytes from the cursor on, as many as asked for or as there are; a fault exactly if they are fewer |
| ActivationStream.ActivationStream.Write | ole32/actprops/actstrm.cxx:112-184 | overwrites at the cursor, growing a buffer that it owns; a write that is refused changes nothing; a buffer that the stream does not own is never replaced |
| ActivationStream.ActivationStream.Seek | ole32/actprops/actstrm.cxx:186-259 | moves the cursor or refuses, as characterised by SeekExact, and reports where the cursor is |
| ActivationStream.ActivationStream.Clone | ole32/actprops/actstrm.cxx:324-358 | the copy stays in its buffer, the bytes after the clone's cursor are those after the original's, for a power of two the cursor is aligned, and the clone is sound exactly if that cursor fits a LONG |
| ActivationStream.FilledIsClone | ole32/actprops/actstrm.cxx:344-356 | the shifted copy with the shifted cursor is such a clone, however the cursor wraps |
| ActivationStream.ActivationStream.FillClone | ole32/actprops/actstrm.cxx:355-356 | the copy and the cursor are moved together |
| ActivationStream.ActivationStream.SetCopyAlignment | ole32/actprops/actstrm.cxx:318-322 | only the alignment changes |
| ActivationStream.ActivationStream.GetCopy | ole32/actprops/actstrm.cxx:405-409 | the target holds the whole data from the given place on, and is unchanged elsewhere |
| ActivationStream.ActivationStream.SetPosition | ole32/actprops/actstrm.cxx:411-419 | a position past the given length is refused without effect; another one is taken with the wrap of its arithmetic, and raises the high-water mark if need be |
| LongPath.FirstStartsComponent | ole2ui32/icon.cpp:1087-1159 | whatever the type of the path, the part skipped ends where a component starts, and a relative path is left without leading dot components |
| LongPath.UncSkipsShare | ole2ui32/icon.cpp:1087-1104 | the examination of a UNC path starts after server and share, if both are there |
| LongPath.FirstByForm | ole2ui32/icon.cpp:963-1156 | every other form of path starts after its device prefix, drive, root or leading dot components |
| LongPath.EatDotsEatsDots | ole2ui32/icon.cpp:1132-1149 | what is skipped at the start of a relative path is made of dots and backslashes, and no dot component is left there |
| LongPath.IsLongComponent | ole2ui32/icon.cpp:819-894 | the one-pass scan finds the end of the component, and calls it short exactly if it has the 8.3 form |
| LongPath.ShortNameIsBaseAndExtension | ole2ui32/icon.cpp:830-897 | the 8.3 form is a base of one to eight legal characters with an extension of up to three, or a lone dot before a separator |
| LongPath.IllegalCharacters | ole2ui32/icon.cpp:875-890 | the characters that the form excludes |
| LongPath.LengthsDecide | ole2ui32/icon.cpp:844-853 | with no objection so far, the two length tests decide the 8.3 form |
| LongPath.BadDot | ole2ui32/icon.cpp:859-872 | a second dot, a dot after more than eight characters or a leading one rules the 8.3 form out |
| LongPath.BadChar | ole2ui32/icon.cpp:874-890 | an illegal character rules the 8.3 form out |
| LongPath.ExpandKeepsStructure | ole2ui32/icon.cpp:1221-1284 | the components of the result are, one for one and in order, the long names of those of the input |
| LongPath.LongNamesExact | ole2ui32/icon.cpp:1221-1270 | a component that is not of the 8.3 form stays; one that is becomes what the file system answers for the path up to its end |
| LongPath.NoTildeNoChange | ole2ui32/icon.cpp:1067-1071 | a path without a tilde is returned as it is |
| LongPath.FinishIsExpand | ole2ui32/icon.cpp:1208-1284 | what the loop accumulates is the skipped prefix followed by the expansion |
| LongPath.FindLongName | ole2ui32/icon.cpp:1248-1261 | the file system is asked for the path up to the component's end, and the input string is restored |
| LongPath.EmitComponent | ole2ui32/icon.cpp:1224-1274 | each component's long name and its terminator are counted, and written only while everything fits |
| LongPath.Deliver | ole2ui32/icon.cpp:1182-1193 | a finished string is delivered whole or not at all, with the count that the caller needs |
| LongPath.ExpandComponents | ole2ui32/icon.cpp:1208-1284 | the count is the size needed, the buffer holds the result if it fits, and no write passes its end |
| LongPath.MyGetLongPathName | ole2ui32/icon.cpp:1040-1300 | too small a buffer returns the size needed with the terminator and stays untouched; one of that size is filled and one less returned; a failed lookup or allocation returns 0; a path without a tilde comes back unchanged; the input is restored |
| LinkNames.DiffPrefix | ole2ui32/utility.cpp:783-848 | the prefixes are what remains when the longest common suffix, ignoring case, that is empty or starts at a delimiter is taken away |
| LinkNames.CommonTail | ole2ui32/utility.cpp:804-817 | the backward comparison stops at the longest common suffix |
| LinkNames.ToDelimiter | ole2ui32/utility.cpp:819-823 | the forward scan stops at the first delimiter, or at the end |
| LinkNames.LongestAfterScan | ole2ui32/utility.cpp:804-823 | no longer suffix that starts at a delimiter agrees |
| LinkNames.SameScan | ole2ui32/utility.cpp:819-823 | both forward scans to a delimiter stop at the same distance from the end |
| LinkNames.RelinkReachesNewName | ole2ui32/links.cpp:1372-1404 | the prefixes found fit the bulk relink's buffer; its test accepts the old name exactly if that name is shorter than MAX_PATH or was cut at a token boundary; and it is rewritten to the new name, ignoring case, exactly if the new name is shorter than MAX_PATH and either the old one is too or the new one just fills the buffer |
| LinkNames.RelinkKeepsTail | ole2ui32/links.cpp:1403-1404 | any other accepted name keeps everything after the prefix, exactly if the new name is shorter than MAX_PATH |
| LinkNames.TestIsAccepts | ole2ui32/links.cpp:1372-1378 | the test accepts exactly the names that start with the prefix at a token boundary; the character it reads beyond the end of a shorter name makes no difference |
| LinksDialog.MoveSettles | ole2ui32/links.cpp:1527-1531 | deleting and re-adding one marked record settles it alone and leaves the order of the others |
| LinksDialog.LinksDialog.LoadLinkLB | ole2ui32/links.cpp:1455-1489 | the list holds one current record for each link enumerated, sorted, as far as there is memory; the count or -1 is returned |
| LinksDialog.LinksDialog.AddLinkLBItem | ole2ui32/links.cpp:998-1066 | the record takes the container's name and goes to a place that keeps the list sorted |
| LinksDialog.LinksDialog.RefreshItem | ole2ui32/links.cpp:1525-1541 | one restart settles one marked record, so the marks decrease |
| LinksDialog.LinksDialog.RefreshLinkLB | ole2ui32/links.cpp:1507-1544 | the restarts end, since the marks decrease; no mark is left, each marked record was read again exactly once, the list is sorted and holds the same records otherwise, and the others keep their order |
| LinksDialog.SettledMember | ole2ui32/links.cpp:1527-1531 | the refreshed list consists of the old records, the marked ones with the container's names |
| LinksDialog.FixUpTracks | ole2ui32/links.cpp:824-830 | after a deletion and the fix-up, every later index is still the position of its own link |
| LinksDialog.LinksDialog.FixUp | ole2ui32/links.cpp:826-830 | the loop shifts exactly the later indices behind the deleted one |
| LinksDialog.LinksDialog.CancelAt | ole2ui32/links.cpp:806-831 | one confirmed link is gone from list and container, or marked, and the remaining indices follow their links |
| LinksDialog.RemainingOne | ole2ui32/links.cpp:815-824 | deleting by index removes exactly the link meant, and marking marks exactly it |
| LinksDialog.RemainingTwice | ole2ui32/links.cpp:796-832 | cancelling in steps is cancelling at once |
| LinksDialog.LinksDialog.CancelAll | ole2ui32/links.cpp:796-832 | at each iteration the list is the original one less exactly the links cancelled so far, with exactly the refused ones marked |
| LinksDialog.LinksDialog.CancelLink | ole2ui32/links.cpp:770-843 | the links asked about before the first no that the container cancels are gone, in list and container, and the rest keeps its order; the refused ones are refreshed; the result is the last answer of the container |
| LinksDialog.RelinkedAt | ole2ui32/links.cpp:1372-1423 | after the loop each link accepted and settable has the rewritten name in the container, every other link its own |
| LinksDialog.RemarkKeepsCoherent | ole2ui32/links.cpp:1361-1427 | after the loop only records marked for refresh can differ from the container |
| LinksDialog.LinksDialog.Relink | ole2ui32/links.cpp:1403-1424 | an accepted link is set with validation and, only if that fails, without, and marked |
| LinksDialog.LinksDialog.RelinkAll | ole2ui32/links.cpp:1361-1427 | the user is asked once, at the first accepted name; a no stops the loop there with nothing set; each accepted link is tried once, in list order |
| LinksDialog.LinksDialog.ChangeAllLinks | ole2ui32/links.cpp:1338-1435 | with consent every accepted link is relinked and shown with its new name; without it the container is untouched; a list that was current stays current |
| TextBuffer.FlushIsExact | ole32/common/buffer.hxx:158-169 | a flush outputs exactly the pending bytes if and only if none of them is NUL and the byte at the position is; otherwise that byte follows them |
| TextBuffer.PutCharOutputs | ole32/common/buffer.hxx:123-133 | the flush that filling triggers outputs exactly the 1024 bytes, and the byte in the last cell if that is not NUL |
| TextBuffer.PutBytesConservesIff | ole32/common/buffer.cxx:72-89 | output and pending bytes together grow by exactly the bytes inserted if and only if no fill meets a stray byte in the last cell |
| TextBuffer.PutBytesCounts | ole32/common/buffer.cxx:72-89 | every 1024 bytes make one flush, and each flush adds one byte to the output if the last cell is not NUL |
| TextBuffer.FirstFill | ole32/common/buffer.hxx:86-90 | the first fill of a new buffer outputs its 1024 bytes alone if and only if the last cell happened to hold a NUL; otherwise that byte follows them |
| TextBuffer.PutStringConservesIff | ole32/common/buffer.cxx:35-55 | the same for strings, after which an explicit flush is exact |
| TextBuffer.RevertIffUnflushed | ole32/common/buffer.cxx:103-121 | a valid snapshot is reverted to exactly if the flushes since are a multiple of 65536, so, short of that, exactly if there was none |
| TextBuffer.RevertKeepsInv | ole32/common/buffer.cxx:103-121 | a revert to any snapshot not passed by a clear or an older revert takes back exactly the text inserted since; to any other one short of a wrap it changes nothing once a flush came between |
| TextBuffer.RevertEndsText | ole32/common/buffer.cxx:113-117 | a revert ends the text it leaves: a byte put after it is output alone by the next flush, whatever was behind the snapshot |
| TextBuffer.FlushConservesIff | ole32/common/buffer.hxx:158-169 | an explicit flush conserves the text exactly if the byte at the position is NUL |
| TextBuffer.PutConservesIff | ole32/common/buffer.cxx:35-89 | insertions conserve the text if and only if no fill meets a stray byte, and keep every snapshot valid that no flush has followed |
| TextBuffer.PerformConservesIff | ole32/common/buffer.cxx:35-121 | each action, with reverts to any snapshot that is live or was flushed since, conserves the text if and only if it is careful |
| TextBuffer.RunConservesIff | ole32/common/buffer.cxx:35-121 | from any memory the constructor finds, output followed by pending bytes is the concatenation of all insertions less the cleared and the reverted tails throughout a run if and only if no fill meets a stray byte in the last cell and no explicit flush meets one at the position |
| TextBuffer.LastCell | ole32/common/buffer.hxx:158-169 | the last cell changes only by a flush or a revert at position 1023, which clears it |
| TextBuffer.DisciplineConserves | ole32/common/buffer.cxx:35-121 | in terms of the calls alone: runs that flush only right after a string and revert only to snapshots not passed by a clear or an older revert conserve the text, over any memory if they insert less than 1024 bytes in all, and otherwise if the last cell is NUL at first; with reverts, as long as the counter cannot wrap |
| TextBuffer.RevertAfterWrap | ole32/common/buffer.cxx:105-117 | after a multiple of 65536 flushes a revert succeeds and brings bytes back that were output before |
| TextBuffer.RevertAfterClear | ole32/common/buffer.hxx:144-147 | a clear leaves the flush counter alone: a revert to a snapshot taken before it succeeds and mixes the text inserted since with the text that was cleared |
| TextBuffer.RevertAfterClearLoses | ole32/common/buffer.cxx:103-121 | the same as a run: take, clear, insert a byte other than the first one cleared, revert; the pending bytes are then not the text wanted |
| TextBuffer.FlushAgainRepeats | ole32/common/buffer.hxx:158-169 | a second flush in a row outputs the first byte again, for every text |
| TextBuffer.RevertedByteIsFlushed | ole32/common/buffer.cxx:113-117 | a revert directly followed by a flush outputs the first byte it took back, for every text |
| TextBuffer.TextBuffer.constructor | ole32/common/buffer.hxx:86-90 | the position and the counter start at 0 over whatever the memory held |
| TextBuffer.TextBuffer.InsertString | ole32/common/buffer.cxx:35-55 | the loop inserts the whole string, flushing as it fills up, leaves its NUL at the position, and the position stays inside the buffer |
| TextBuffer.TextBuffer.Insert | ole32/common/buffer.cxx:72-89 | the loop inserts exactly the bytes counted, flushing as it fills up |
| TextBuffer.TextBuffer.Flush | ole32/common/buffer.hxx:158-169 | outputs the string at the start of the buffer, counts modulo 65536 and empties the buffer |
| TextBuffer.TextBuffer.RevertTo | ole32/common/buffer.cxx:103-121 | goes back to a snapshot exactly if the counters agree and its position is inside |
| TextBuffer.TextBuffer.InsertChar | ole32/common/buffer.hxx:123-133 | the byte is appended, and a full buffer flushed at once |
| TextBuffer.TextBuffer.TakeSnapShot | ole32/common/buffer.hxx:183-187 | the snapshot is the position and the 16-bit counter |
| ChopText.FindChar | ole2ui32/utility.cpp:309-318 | the first occurrence, or none |
| ChopText.FindReverseChar | ole2ui32/utility.cpp:320-330 | the last occurrence, or none |
| ChopText.FirstFitIsUnique | ole2ui32/utility.cpp:332-401 | the abbreviation is determined by the path and the room |
| ChopText.FirstFitIsLongest | ole2ui32/utility.cpp:361-395 | no candidate of its kind that fits is longer, and one with the root is preferred to one without |
| ChopText.RootIsDriveOrServer | ole2ui32/utility.cpp:332-339 | the root kept is the drive or the server name |
| ChopText.FormShowsEnds | ole2ui32/utility.cpp:345-395 | an abbreviation is the beginning of the path, a backslash and three full stops, and the end of the path from a backslash on, or three full stops and an end of the file name |
| ChopText.ScratchSuffices | ole2ui32/utility.cpp:341-343 | in scratch space of length + 5 no candidate is ever cut |
| ChopText.ChopDirectories | ole2ui32/utility.cpp:348-376 | the loop returns the first backslash from which the tail after the root fits, or none fits |
| ChopText.ChopName | ole2ui32/utility.cpp:384-395 | the loop returns the longest end of the file name that fits, or none fits |
| ChopText.Choose | ole2ui32/utility.cpp:338-400 | the loops together find the first candidate that fits, in the order of the code |
| ChopText.FormIsText | ole2ui32/utility.cpp:341-343 | every candidate is a string at most four characters longer than the path |
| ChopText.Abbreviate | ole2ui32/utility.cpp:332-401 | the buffer holds the first candidate that fits, or the empty string if none does; without memory it is unchanged |
| ChopText.ChopText | ole2ui32/utility.cpp:420-461 | text that fits stays as it is; any other becomes the first candidate that fits both limits |
| FormatStrings.ExpandRendersTokens | ole2ui32/utility.cpp:636-660 | a format is the spelling of its pieces, and its expansion renders each piece once, never looking at inserted text again |
| FormatStrings.ParsePrint | ole2ui32/utility.cpp:638-641 | the pieces of a format are determined by its text |
| FormatStrings.PlaceTakesArgument | ole2ui32/utility.cpp:638-653 | the n-th place takes the n-th argument, nothing for a null pointer, a question mark beyond the last |
| FormatStrings.OthersStay | ole2ui32/utility.cpp:654-658 | every other character stands for itself |
| FormatStrings.ExpandIsText | ole2ui32/utility.cpp:648-651 | no terminator comes from within the expansion |
| FormatStrings.CopyAt | ole2ui32/utility.cpp:649-651 | a bounded copy writes the longest prefix with its terminator that fits |
| FormatStrings.Put | ole2ui32/utility.cpp:638-658 | one round writes what the front of the format stands for, as far as it fits |
| FormatStrings.FormatStrings | ole2ui32/utility.cpp:632-661 | the destination gets the longest prefix of the unbounded expansion that fits with its terminator, and no character after that is touched; with a size below 1 it gets the terminator alone |
| SizeFormat.OrderInTable | ole2ui32/objprop.cpp:342-366 | the unit is in the table of five exactly for sizes below 1000 of the last unit; no 64-bit size goes past order 6 |
| SizeFormat.DigitsExact | ole2ui32/objprop.cpp:368-371 | whole part and decimals together have exactly three significant places |
| SizeFormat.ShortApproximates | ole2ui32/objprop.cpp:368-378 | the printed number never exceeds the size, and falls short by less than one unit of its last place plus a 1024th of the unit |
| SizeFormat.DecimalsApproximate | ole2ui32/objprop.cpp:373-378 | the decimals are the remainder rounded down to the places printed, and never need another place |
| SizeFormat.Fraction | ole2ui32/objprop.cpp:371-378 | the decimal arithmetic in 32 bits is exact: no product wraps |
| SizeFormat.Reduce | ole2ui32/objprop.cpp:364-366 | the shifts stop at the first unit of which the size has less than a thousand |
| SizeFormat.ShortSizeFormat64 | ole2ui32/objprop.cpp:351-400 | sizes below 1000 are printed exactly, negative ones down to -2^31 too; any other with a whole part of at most 999 in the right unit, within the error bound, with three digits in all |

## Left out

- IsUptodate: a wait that fails in another way than by timing out; the code answers false there as well. The poll and the new registration are one step.
- AddString: a string larger than the initial block, for which one doubling might not be enough; the scan cannot produce one.
- NewCall: calls from several threads at once, and two dialogs open at a time; the cache has no lock.
- ScanKey: the queries for one key are one step, `CLSIDFromString` is a test of the textual form, and list box searches ignore the case of ASCII letters only.
- Open: calls with more than one selection bit set, the validation of the arguments, and the flags of the call other than the selection and the verify bit, which the cache only compares.
- WmDrawClipboard: viewers that are not Paste Special dialogs; every window of the chain follows this protocol. Window handles are not used again.
- RunConservesIff: reverts across a whole wrap of the counter, or to a snapshot that a clear or an older revert has passed without a flush since; `RevertAfterWrap` and `RevertAfterClearLoses` show that they leave another text than the one wanted.
- Run: memory models weaker than sequential consistency for the two state machines.
- Write: a 32-bit build, in which the sum of actstrm.cxx:131 is computed in 32 bits and its check cannot refuse.
- Clone: sizes whose sum with the alignment wraps; `CloneFitsExactly` shows that these are exactly the ones the copy overruns.
- StepSimulates: accepted seeks past the end of the data and transfers ending above 2 GB; `SeekExact`, `ReadExact` and `WriteExact` say exactly when the state stays sound.
- `GetOrCreateBuffer`, `AssignSerializedInterface`, reference counts and `QueryInterface` of the stream.
- MyGetLongPathName: exceptions raised while the path is read; `FindFirstFile` is a function from paths to names that does not change during the call.
- ChangeAllLinks: prefixes of MAX_PATH or more characters, which its buffer would not hold and `DiffPrefix` never makes, and a fault of the read beyond the end of a name shorter than the prefix.
- AddLinkLBItem: failures of the container or of the list box; the list box's choice among equal names is any that keeps the order.
- CancelLink: the text of the Close button.
- FlushIsExact: the cell after the buffer is taken to be padding, as the alignment of the next field makes it.
- ChopText: the terminator that is written at the root while it is copied and taken back, and characters of more than one unit; the width of a text is a function of the text.
- ShortSizeFormat64: the text itself, with the locale's separators and the name of the unit.
- DiffPrefix: characters of more than one unit; lower-casing is a map of characters that keeps the delimiters.
- Drawing, fonts, dialog layout, message boxes, property sheets, metafiles, ANSI wrappers, parameter validation, RPC and the NDR engine: nothing in them has a comparable property.
