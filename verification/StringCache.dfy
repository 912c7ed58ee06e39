/** The Insert Object string cache: strings packed into one growing byte block with an offset table. */
module StringCache {
  import opened Common
  import opened PackedStrings
  import opened ClassRegistry

  const CACHE_MAX_BYTES_INITIAL := 131072
  const MAX_INDEX_ENTRIES_INITIAL := 128

  // The dwFlags of a call, split into its select bits, its verify bit and the rest.
  datatype Source = NoSource | CreateNew | FromFile | CreateControl
  datatype Flags = Flags(select: Source, verify: bool, others: nat)

  // The sizes the block can have: the initial size doubled up to 2^31.
  predicate IsBlockSize(n: int) {
    n in {0x2_0000, 0x4_0000, 0x8_0000, 0x10_0000, 0x20_0000, 0x40_0000, 0x80_0000, 0x100_0000,
          0x200_0000, 0x400_0000, 0x800_0000, 0x1000_0000, 0x2000_0000, 0x4000_0000, 0x8000_0000}
  }

  // The largest of them.
  const MAX_BLOCK := 0x8000_0000

  // ULONG doubling: the product wraps to 0 at 2^32.
  function Doubled(n: nat): nat {
    (2 * n) % 0x1_0000_0000
  }

  function SizeOf(s: Text): nat {
    2 * (|s| + 1)
  }

  // The block and the offset table hold exactly the list: offset 0 first, one offset for each
  // string and one for the next, and the bytes before it are the packed strings.
  ghost predicate Holds(block: seq<Byte>, table: seq<nat>, l: seq<Text>) {
    && |l| < |table|
    && (forall i :: 0 <= i <= |l| ==> table[i] == OffsetOf(l, i))
    && table[|l|] <= |block|
    && block[..table[|l|]] == Pack(l)
  }

  // Reallocation keeps the representation.
  lemma HoldsAfterGrowth(block: seq<Byte>, table: seq<nat>, l: seq<Text>, block': seq<Byte>, table': seq<nat>)
    requires Holds(block, table, l) && block <= block' && table <= table'
    ensures Holds(block', table', l)
  {
    assert block'[..table[|l|]] == block[..table[|l|]];
  }

  // Writing one encoded string at the last offset extends the list by it.
  lemma HoldsAfterAdd(block: seq<Byte>, table: seq<nat>, l: seq<Text>, block': seq<Byte>, table': seq<nat>, s: Text)
    requires Holds(block, table, l) && |l| + 1 < |table| == |table'|
    requires var at := table[|l|];
      && at + SizeOf(s) <= |block'| && block'[..at] == block[..at]
      && block'[at..at + SizeOf(s)] == Encode(s)
      && table' == table[|l| + 1 := at + SizeOf(s)]
    ensures Holds(block', table', l + [s])
  {
    hide Encode;
    var at := table[|l|];
    var l' := l + [s];
    PackSnoc(l, s);
    assert block'[..at + SizeOf(s)] == block'[..at] + block'[at..at + SizeOf(s)];
    assert l'[..|l'|] == l';
    forall i | 0 <= i <= |l| ensures OffsetOf(l', i) == OffsetOf(l, i) {
      assert l'[..i] == l[..i];
    }
  }

  class StringCache {
    var strings: array<Byte>
    var offsets: array<nat>
    var stringCount: nat
    var maxStringCount: nat
    var maxBytes: nat
    var nextStringNum: nat
    var flagsPrev: Option<Flags>   // None stands for the impossible initial value
    var excludePrev: nat
    var ok: bool                   // gbOKToUseCache

    ghost var contents: seq<Text>  // the strings added since the last flush

    ghost predicate Valid()
      reads this, strings, offsets
    {
      ok ==>
        && IsBlockSize(maxBytes) && strings.Length == maxBytes
        && offsets.Length == maxStringCount + 1 && maxStringCount <= ULONG_MAX
        && stringCount == |contents| && stringCount + 2 <= maxStringCount
        && 1 <= nextStringNum <= stringCount + 1
        && AllText(contents) && Holds(strings[..], offsets[..], contents)
    }

    // Init: the event, the key, the first notification and both tables must all be granted.
    constructor Init(reg: Registry, eventGranted: bool, keyOpened: bool, notifyGranted: bool, memory: bool)
      requires !reg.armed && !reg.signaled
      modifies reg
      ensures Valid() && contents == [] && fresh(strings) && fresh(offsets)
      ensures ok == (eventGranted && keyOpened && notifyGranted && memory)
      ensures flagsPrev == None && excludePrev == 0xffff_ffff
      ensures reg.armed == (eventGranted && keyOpened && notifyGranted) && !reg.signaled
      ensures reg.view == old(reg.view)
      ensures reg.clsidChanges == old(reg.clsidChanges) && reg.restChanges == old(reg.restChanges)
    {
      maxBytes, maxStringCount, nextStringNum, stringCount := 0, 0, 1, 0;
      flagsPrev, excludePrev := None, 0xffff_ffff;
      strings, offsets := new Byte[0], new nat[0];
      contents, ok := [], false;
      new;
      if !eventGranted || !keyOpened { return; }
      var armed := reg.NotifyChange(notifyGranted);
      if !armed || !memory { return; }
      AllocateTables();
      ok := true;
    }

    // The first expansion of both tables.
    method AllocateTables()
      modifies this`maxBytes, this`strings, this`maxStringCount, this`offsets
      ensures fresh(strings) && maxBytes == strings.Length == CACHE_MAX_BYTES_INITIAL
      ensures fresh(offsets) && maxStringCount == MAX_INDEX_ENTRIES_INITIAL
      ensures offsets.Length == maxStringCount + 1 && offsets[0] == 0
    {
      maxBytes, strings := CACHE_MAX_BYTES_INITIAL, new Byte[CACHE_MAX_BYTES_INITIAL];
      maxStringCount, offsets := MAX_INDEX_ENTRIES_INITIAL, new nat[MAX_INDEX_ENTRIES_INITIAL + 1];
      offsets[0] := 0;
    }

    // Doubles the block. A failed reallocation leaves the block but not its recorded size.
    method ExpandStringTable(memory: bool) returns (grown: bool)
      requires IsBlockSize(maxBytes) && strings.Length == maxBytes
      modifies this`maxBytes, this`strings
      ensures grown == (memory && old(maxBytes) < MAX_BLOCK)
      ensures grown ==> maxBytes == 2 * old(maxBytes) && IsBlockSize(maxBytes) && strings.Length == maxBytes
      ensures grown ==> fresh(strings) && strings[..old(maxBytes)] == old(strings[..])
      ensures !grown ==> strings == old(strings)
    {
      maxBytes := Doubled(maxBytes);
      if !memory || maxBytes == 0 { return false; }
      var block := new Byte[maxBytes];
      forall i | 0 <= i < strings.Length { block[i] := strings[i]; }
      strings := block;
      return true;
    }

    method ExpandOffsetTable(memory: bool) returns (grown: bool)
      requires 0 < maxStringCount < 0x8000_0000 && offsets.Length == maxStringCount + 1
      modifies this`maxStringCount, this`offsets
      ensures grown == memory
      ensures grown ==> maxStringCount == 2 * old(maxStringCount) && offsets.Length == maxStringCount + 1
      ensures grown ==> fresh(offsets) && offsets[..old(offsets.Length)] == old(offsets[..])
      ensures !grown ==> offsets == old(offsets)
    {
      maxStringCount := Doubled(maxStringCount);
      if !memory { return false; }
      var table := new nat[maxStringCount + 1];
      forall i | 0 <= i < offsets.Length { table[i] := offsets[i]; }
      offsets := table;
      return true;
    }

    // Clears the counters; the block and the table stay as they are.
    method FlushCache()
      requires Valid()
      modifies this`nextStringNum, this`stringCount, this`contents
      ensures Valid() && contents == []
    {
      nextStringNum, stringCount := 1, 0;
      contents := [];
    }

    method NewCall(flags: Flags, excluded: nat)
      requires Valid()
      modifies this
      ensures Valid() && ok == old(ok) && strings == old(strings) && offsets == old(offsets)
      ensures flagsPrev == Some(flags) && excludePrev == excluded
      ensures contents == if old(flagsPrev) == Some(flags) && old(excludePrev) == excluded
                          then old(contents) else []
    {
      if flagsPrev != Some(flags) || excluded != excludePrev {
        flagsPrev, excludePrev := Some(flags), excluded;
        FlushCache();
      }
    }

    // An empty cache is never up to date and leaves the event alone; otherwise a fired event is
    // consumed and the watch registered again.
    method IsUptodate(reg: Registry, rearm: bool) returns (current: bool)
      requires Valid() && ok
      modifies this`ok, reg`armed, reg`signaled
      ensures Valid() && reg.view == old(reg.view)
      ensures current <==> contents != [] && !old(reg.signaled)
      ensures contents == [] ==> unchanged(reg) && ok
      ensures current ==> unchanged(reg) && ok
      ensures contents != [] && old(reg.signaled) ==>
        !reg.signaled && reg.armed == (old(reg.armed) || rearm) && ok == rearm
    {
      if stringCount == 0 { return false; }
      var fired := reg.Poll();
      if !fired { return true; }
      var armed := reg.NotifyChange(rearm);
      if !armed { ok := false; }
      return false;
    }

    method AddString(s: Text, tableMemory: bool, blockMemory: bool) returns (added: bool)
      requires Valid() && ok
      requires IsText(s) && SizeOf(s) <= CACHE_MAX_BYTES_INITIAL
      modifies this`maxBytes, this`strings, this`maxStringCount, this`offsets, this`ok,
               this`stringCount, this`contents, strings, offsets
      ensures Valid() && ok == added
      ensures fresh(strings) || strings == old(strings)
      ensures fresh(offsets) || offsets == old(offsets)
      ensures added ==> contents == old(contents) + [s]
      ensures !added ==> contents == old(contents)
      ensures added <==>
        && (old(stringCount) + 2 == old(maxStringCount) ==> tableMemory)
        && (|Pack(old(contents))| + SizeOf(s) > old(maxBytes) ==> blockMemory && old(maxBytes) < MAX_BLOCK)
    {
      CountBound(contents);
      assert offsets[stringCount] == |Pack(contents)| by { assert contents[..stringCount] == contents; }
      hide Pack, AllText, IsText;
      ghost var block, table := strings[..], offsets[..];
      if stringCount + 2 == maxStringCount {
        var grown := ExpandOffsetTable(tableMemory);
        if !grown {
          ok := false;
          return false;
        }
      }
      var offset := offsets[stringCount];
      if offset + SizeOf(s) > maxBytes {
        var grown := ExpandStringTable(blockMemory);
        if !grown {
          ok := false;
          return false;
        }
      }
      HoldsAfterGrowth(block, table, contents, strings[..], offsets[..]);
      StoreString(s, offset);
      return true;
    }

    // The tail of AddString: there is room for the string and for one more offset.
    method StoreString(s: Text, offset: nat)
      requires Valid() && ok && IsText(s)
      requires stringCount + 3 <= maxStringCount && offset == offsets[stringCount]
      requires offset + SizeOf(s) <= maxBytes
      modifies this`stringCount, this`contents, strings, offsets
      ensures Valid() && contents == old(contents) + [s]
    {
      ghost var block, table := strings[..], offsets[..];
      CopyText(strings, offset, s);
      stringCount := stringCount + 1;
      offsets[stringCount] := offset + SizeOf(s);
      HoldsAfterAdd(block, table, contents, strings[..], offsets[..], s);
      contents := contents + [s];
    }

    // The enumerator: where the next string starts in the block, or none after the last.
    method NextString() returns (at: Option<nat>)
      requires Valid() && ok
      modifies this`nextStringNum
      ensures Valid()
      ensures old(nextStringNum) > |contents| ==> at == None && nextStringNum == old(nextStringNum)
      ensures old(nextStringNum) <= |contents| ==>
        && nextStringNum == old(nextStringNum) + 1
        && at.Some? && Decode(strings[..], at.value) == Some(contents[old(nextStringNum) - 1])
    {
      if nextStringNum > stringCount { return None; }
      at := Some(offsets[nextStringNum - 1]);
      ghost var used := offsets[stringCount];
      assert strings[..] == Pack(contents) + strings[used..];
      DecodePack(contents, nextStringNum - 1, strings[used..]);
      nextStringNum := nextStringNum + 1;
    }

    method ResetEnumerator()
      requires Valid()
      modifies this`nextStringNum
      ensures Valid() && nextStringNum == 1
    {
      nextStringNum := 1;
    }
  }

  // The first character of a copy, and the rest of it.
  lemma CopyStep(was: seq<Byte>, block: seq<Byte>, at: nat, s: Text)
    requires s != [] && at + SizeOf(s) <= |was| == |block|
    requires block[..at + 2] == was[..at] + [s[0] % 256, s[0] / 256]
    requires block[at + 2..at + SizeOf(s)] == Encode(s[1..])
    ensures block[..at] == was[..at] && block[at..at + SizeOf(s)] == Encode(s)
  {
    assert block[..at] == block[..at + 2][..at];
    assert block[at..at + SizeOf(s)] == block[..at + 2][at..] + block[at + 2..at + SizeOf(s)];
  }

  // lstrcpy into the byte block, terminator included.
  method CopyText(block: array<Byte>, at: nat, s: Text)
    requires at + SizeOf(s) <= block.Length
    modifies block
    ensures block[..at] == old(block[..at])
    ensures block[at..at + SizeOf(s)] == Encode(s)
    ensures block[at + SizeOf(s)..] == old(block[at + SizeOf(s)..])
    decreases |s|
  {
    if s == [] {
      block[at], block[at + 1] := 0, 0;
      assert block[at..at + 2] == [0, 0];
    } else {
      hide Encode;
      block[at], block[at + 1] := s[0] % 256, s[0] / 256;
      assert block[..at + 2] == old(block[..at]) + [s[0] % 256, s[0] / 256];
      assert SizeOf(s) == 2 + SizeOf(s[1..]);
      CopyText(block, at + 2, s[1..]);
      CopyStep(old(block[..]), block[..], at, s);
    }
  }
}
