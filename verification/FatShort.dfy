/** Names that `create` stores without long-name slots: how they are turned into 8.3 form, and when listing and
    lookup give them back.

    `needs_lfn` splits a name at its last dot, `name_to_short` at its first.
 */
module FatShort {
  import opened FatDisk
  import opened FatNames
  import opened FatLookup
  import opened FatItems

  // ---------------------------------------------------------------------------
  // Splitting and casing
  // ---------------------------------------------------------------------------

  /** Position of the first dot, or the length. */
  function FirstDot(name: Name): (k: nat)
    ensures k <= |name| && (k < |name| ==> name[k] == '.' as nat) && forall i :: 0 <= i < k ==> name[i] != '.' as nat
  {
    if name == [] || name[0] == '.' as nat then 0 else 1 + FirstDot(name[1..])
  }

  /** Position of the last dot, or the length. */
  function LastDot(name: Name): (k: nat)
    ensures k <= |name| && (k < |name| ==> name[k] == '.' as nat)
    ensures forall i :: k < i < |name| ==> name[i] != '.' as nat
    ensures k == |name| ==> forall i :: 0 <= i < |name| ==> name[i] != '.' as nat
  {
    if name == [] then 0
    else
      var n := |name| - 1;
      if name[n] == '.' as nat then n
      else if LastDot(name[..n]) == n then |name|
      else LastDot(name[..n])
  }

  predicate IsUpper(c: nat) {
    'A' as nat <= c <= 'Z' as nat
  }

  predicate IsLower(c: nat) {
    'a' as nat <= c <= 'z' as nat
  }

  predicate HasUpper(text: Name) {
    exists i :: 0 <= i < |text| && IsUpper(text[i])
  }

  predicate HasLower(text: Name) {
    exists i :: 0 <= i < |text| && IsLower(text[i])
  }

  predicate Mixed(text: Name) {
    HasUpper(text) && HasLower(text)
  }

  /** The characters no 8.3 name may hold. */
  predicate Illegal(c: nat) {
    c == ' ' as nat || c == '+' as nat || c == ',' as nat || c == ';' as nat || c == '=' as nat || c == '[' as nat ||
    c == ']' as nat
  }

  /** What stands before and behind position `k`, the character there left out. */
  function Head(name: Name, k: nat): Name
    requires k <= |name|
  {
    name[..k]
  }

  function Tail(name: Name, k: nat): Name
    requires k <= |name|
  {
    if k < |name| then name[k + 1..] else []
  }

  predicate NeedsLfn(name: Name) {
    var base, ext := Head(name, LastDot(name)), Tail(name, LastDot(name));
    || |base| > 8 || |ext| > 3
    || (exists i :: 0 <= i < |name| && Illegal(name[i]))
    || Mixed(base) || Mixed(ext)
  }

  function Upper(c: nat): nat {
    if IsLower(c) then c - 32 else c
  }

  /** At most `width` characters of `text`, in capital letters. */
  function Stored(text: Name, width: nat): (r: seq<Byte>)
    requires forall i :: 0 <= i < |text| ==> text[i] < 0x80
    ensures |r| == Least(|text|, width)
  {
    seq(Least(|text|, width), i requires 0 <= i < Least(|text|, width) => Upper(text[i]))
  }

  function Spaces(n: nat): (r: seq<Byte>)
    ensures |r| == n && forall i :: 0 <= i < n ==> r[i] == SPACE
  {
    seq(n, _ => SPACE)
  }

  /** The text is all in small letters. */
  predicate Small(text: Name) {
    HasLower(text) && !HasUpper(text)
  }

  /** `name_to_short`: the 11 bytes and the case byte, in an entry for an empty file. */
  function ShortEntry(name: Name): (slot: Slot)
    requires Plain(name)
  {
    var base, ext := Head(name, FirstDot(name)), Tail(name, FirstDot(name));
    var b, e := Stored(base, 8), Stored(ext, 3);
    b + Spaces(8 - |b|) + e + Spaces(3 - |e|) +
    [0x20, (if Small(base) then 8 else 0) + (if Small(ext) then 16 else 0)] + seq(19, _ => 0)
  }

  // ---------------------------------------------------------------------------
  // There and back
  // ---------------------------------------------------------------------------

  /** The part of the name behind the first dot fits, is not empty and is in one case. */
  predicate Survives(name: Name) {
    var ext := Tail(name, FirstDot(name));
    FirstDot(name) == |name| || (1 <= |ext| <= 3 && !Mixed(ext))
  }

  lemma Fields(slot: Slot, b: seq<Byte>, e: seq<Byte>, rest: seq<Byte>)
    requires |b| <= 8 && |e| <= 3 && |rest| == 21
    requires slot == b + Spaces(8 - |b|) + e + Spaces(3 - |e|) + rest
    ensures slot[0..|b|] == b && (|b| < 8 ==> slot[|b|] == SPACE)
    ensures slot[8..8 + |e|] == e && (|e| < 3 ==> slot[8 + |e|] == SPACE)
    ensures forall i :: 11 <= i < SLOT ==> slot[i] == rest[i - 11]
  {
    hide Spaces;
  }

  lemma EntryFields(name: Name)
    requires Plain(name)
    ensures var base, ext := Head(name, FirstDot(name)), Tail(name, FirstDot(name));
            var b, e, slot := Stored(base, 8), Stored(ext, 3), ShortEntry(name);
            && slot[0..|b|] == b && (|b| < 8 ==> slot[|b|] == SPACE)
            && slot[8..8 + |e|] == e && (|e| < 3 ==> slot[8 + |e|] == SPACE)
            && slot[11] == 0x20 && slot[12] == (if Small(base) then 8 else 0) + (if Small(ext) then 16 else 0)
            && Word(slot, 28) == 0 && ClusterOf(slot) == 0
  {
    hide Stored, Small, FirstDot, Spaces, ShortEntry, Word, ClusterOf;
    var base, ext := Head(name, FirstDot(name)), Tail(name, FirstDot(name));
    var nt: Byte := (if Small(base) then 8 else 0) + (if Small(ext) then 16 else 0);
    var rest: seq<Byte> := [0x20, nt] + seq(19, _ => 0);
    Parts(name, rest);
    Fields(ShortEntry(name), Stored(base, 8), Stored(ext, 3), rest);
    EmptyFile(ShortEntry(name), rest);
  }

  lemma EmptyFile(slot: Slot, rest: seq<Byte>)
    requires |rest| == 21 && (forall i :: 2 <= i < 21 ==> rest[i] == 0)
    requires forall i :: 11 <= i < SLOT ==> slot[i] == rest[i - 11]
    ensures slot[11] == rest[0] && slot[12] == rest[1] && Word(slot, 28) == 0 && ClusterOf(slot) == 0
  {
    assert forall i :: 13 <= i < SLOT ==> slot[i] == 0;
  }

  lemma Parts(name: Name, rest: seq<Byte>)
    requires Plain(name)
    requires var base, ext := Head(name, FirstDot(name)), Tail(name, FirstDot(name));
             rest == [0x20, (if Small(base) then 8 else 0) + (if Small(ext) then 16 else 0)] + seq(19, _ => 0)
    ensures var b, e := Stored(Head(name, FirstDot(name)), 8), Stored(Tail(name, FirstDot(name)), 3);
            ShortEntry(name) == b + Spaces(8 - |b|) + e + Spaces(3 - |e|) + rest
  {
    hide Stored, Small, FirstDot, Spaces;
  }

  lemma FirstBeforeLast(name: Name)
    ensures FirstDot(name) <= LastDot(name)
  {
  }

  lemma StoredNoSpace(text: Name, width: nat)
    requires forall i :: 0 <= i < |text| ==> text[i] < 0x80 && text[i] != SPACE
    ensures NoSpace(Stored(text, width))
  {
  }

  lemma EntrySpells(name: Name)
    requires Plain(name) && !NeedsLfn(name)
    ensures Spells(ShortEntry(name), Stored(Head(name, FirstDot(name)), 8), Stored(Tail(name, FirstDot(name)), 3))
  {
    var k := FirstDot(name);
    assert forall i :: 0 <= i < |name| ==> !Illegal(name[i]);
    hide NeedsLfn, ShortEntry, FirstDot, Stored;
    EntryFields(name);
    StoredNoSpace(Head(name, k), 8);
    StoredNoSpace(Tail(name, k), 3);
  }

  /** Capital letters and the case byte keep a text exactly when it is in one case. */
  lemma CaseBack(text: Name, width: nat)
    requires |text| <= width && forall i :: 0 <= i < |text| ==> text[i] < 0x80
    ensures Cased(Stored(text, width), Small(text)) == text <==> !Mixed(text)
  {
    var shown := Cased(Stored(text, width), Small(text));
    if Mixed(text) {
      var i :| 0 <= i < |text| && IsLower(text[i]);
      assert shown[i] == Upper(text[i]);
    } else {
      assert forall i :: 0 <= i < |text| ==> shown[i] == text[i];
    }
  }

  lemma CaseLength(text: Name, width: nat)
    requires forall i :: 0 <= i < |text| ==> text[i] < 0x80
    ensures |Cased(Stored(text, width), Small(text))| == Least(|text|, width)
  {
  }

  /** The head is short and in one case, because what comes before the last dot is. */
  lemma HeadFits(name: Name)
    requires !NeedsLfn(name)
    ensures var base := Head(name, FirstDot(name)); |base| <= 8 && !Mixed(base)
    ensures FirstDot(name) == |name| ==> LastDot(name) == |name|
  {
    FirstBeforeLast(name);
    var base, long := Head(name, FirstDot(name)), Head(name, LastDot(name));
    assert forall i :: 0 <= i < |base| ==> base[i] == long[i];
    assert HasUpper(base) ==> HasUpper(long);
    assert HasLower(base) ==> HasLower(long);
  }

  lemma EntryShown(name: Name)
    requires Plain(name) && !NeedsLfn(name)
    ensures var base, ext := Head(name, FirstDot(name)), Tail(name, FirstDot(name));
            ShortName(ShortEntry(name)) ==
            Cased(Stored(base, 8), Small(base)) +
            if ext == [] then [] else ['.' as nat] + Cased(Stored(ext, 3), Small(ext))
  {
    hide NeedsLfn, ShortEntry, Spells, ShortName, Stored, Cased, Small, FirstDot;
    EntrySpells(name);
    EntryFields(name);
    var base, ext := Head(name, FirstDot(name)), Tail(name, FirstDot(name));
    ShortNameIs(ShortEntry(name), Stored(base, 8), Stored(ext, 3));
    CaseBits(Small(base), Small(ext));
  }

  lemma CaseBits(base: bool, ext: bool)
    ensures var nt := (if base then 8 else 0) + (if ext then 16 else 0);
            (nt / 8 % 2 == 1 <==> base) && (nt / 16 % 2 == 1 <==> ext)
  {
  }

  lemma BehindTheDot(base: Name, ext: Name, e: Name)
    ensures base + (['.' as nat] + ext) == base + (if ext == [] then [] else ['.' as nat] + e) <==>
            ext != [] && e == ext
  {
    var x, y := base + (['.' as nat] + ext), base + (if ext == [] then [] else ['.' as nat] + e);
    if x == y {
      assert x[|base|] == '.' as nat && x[|base| + 1..] == ext;
      assert ext != [] ==> y[|base| + 1..] == e;
      assert ext == [] ==> |y| == |base|;
    }
  }

  /** The extension comes back exactly when it fits and is in one case. */
  lemma TailBack(ext: Name)
    requires forall i :: 0 <= i < |ext| ==> ext[i] < 0x80
    ensures Cased(Stored(ext, 3), Small(ext)) == ext <==> |ext| <= 3 && !Mixed(ext)
  {
    hide Stored, Cased, Small, Mixed;
    CaseLength(ext, 3);
    if |ext| <= 3 { CaseBack(ext, 3); }
  }

  /** A name without long-name slots is shown as it was given if and only if it survives. */
  lemma ShortRoundTrip(name: Name)
    requires Plain(name) && !NeedsLfn(name)
    ensures ShortName(ShortEntry(name)) == name <==> Survives(name)
  {
    var k := FirstDot(name);
    var base, ext := Head(name, k), Tail(name, k);
    EntryShown(name);
    HeadFits(name);
    CaseBack(base, 8);
    TailBack(ext);
    hide *;
    Joined(name, k);
    BehindTheDot(base, ext, Cased(Stored(ext, 3), Small(ext)));
  }

  lemma Joined(name: Name, k: nat)
    requires k <= |name| && (k < |name| ==> name[k] == '.' as nat)
    ensures name == if k < |name| then Head(name, k) + (['.' as nat] + Tail(name, k)) else Head(name, k)
    ensures k == |name| ==> Tail(name, k) == []
    ensures Survives(name) <==>
            (FirstDot(name) == |name| ||
             (1 <= |Tail(name, FirstDot(name))| <= 3 && !Mixed(Tail(name, FirstDot(name)))))
  {
    hide Mixed, FirstDot;
  }

  lemma FoldBack(text: Name, width: nat)
    requires |text| <= width && forall i :: 0 <= i < |text| ==> text[i] < 0x80
    ensures SameName(Cased(Stored(text, width), Small(text)), text)
  {
  }

  lemma SameParts(a: Name, b: Name, x: Name, y: Name)
    requires SameName(a, x) && SameName(b, y)
    ensures SameName(a + b, x + y)
  {
  }

  /** A lookup matches the stored name if and only if nothing was cut off it. */
  lemma ShortFound(name: Name)
    requires Plain(name) && !NeedsLfn(name)
    ensures SameName(ShortName(ShortEntry(name)), name) <==>
            FirstDot(name) == |name| || 1 <= |Tail(name, FirstDot(name))| <= 3
  {
    var k := FirstDot(name);
    var base, ext := Head(name, k), Tail(name, k);
    EntryShown(name);
    HeadFits(name);
    CaseLength(base, 8);
    CaseLength(ext, 3);
    FoldBack(base, 8);
    if |ext| <= 3 { FoldBack(ext, 3); }
    hide NeedsLfn, ShortEntry, ShortName, Stored, Cased, Small, Mixed, FirstDot, Survives;
    Joined(name, k);
    if k < |name| && 1 <= |ext| <= 3 {
      var e := Cased(Stored(ext, 3), Small(ext));
      assert SameName(['.' as nat], ['.' as nat]);
      SameParts(['.' as nat], e, ['.' as nat], ext);
      SameParts(Cased(Stored(base, 8), Small(base)), ['.' as nat] + e, base, ['.' as nat] + ext);
    } else if k == |name| {
      SameParts(Cased(Stored(base, 8), Small(base)), [], base, []);
      assert base + [] == base;
    }
  }

  // ---------------------------------------------------------------------------
  // Creating such an entry
  // ---------------------------------------------------------------------------

  /** The new entry. */
  ghost function NewItem(name: Name): Item
    requires Plain(name)
  {
    Short(ShortEntry(name), Stored(Head(name, FirstDot(name)), 8), Stored(Tail(name, FirstDot(name)), 3))
  }

  lemma NewItemOk(name: Name)
    requires Plain(name) && !NeedsLfn(name)
    ensures ItemOk(NewItem(name)) && ListedAs(NewItem(name)) == [Listed(ShortName(ShortEntry(name)), false, 0, 0)]
  {
    hide ShortEntry, NeedsLfn, Stored, FirstDot, Spells, ShortName, Small;
    EntrySpells(name);
    EntryFields(name);
    FirstByte(name);
    ShortNameIs(ShortEntry(name), Stored(Head(name, FirstDot(name)), 8), Stored(Tail(name, FirstDot(name)), 3));
  }

  lemma FirstByte(name: Name)
    requires Plain(name)
    ensures var c := ShortEntry(name)[0]; c != 0 && c != DELETED && c != DOT
  {
    EntryFields(name);
    var slot, b := ShortEntry(name), Stored(Head(name, FirstDot(name)), 8);
    hide ShortEntry, Small;
    if b != [] { assert slot[0] == slot[0..|b|][0] == Upper(name[0]) && name[0] != '.' as nat; }
  }

  lemma {:induction false} SlotsJoin(a: seq<Item>, b: seq<Item>)
    requires ItemsOk(a) && ItemsOk(b)
    ensures ItemsOk(a + b) && AllSlots(a + b) == AllSlots(a) + AllSlots(b)
    ensures AllListed(a + b) == AllListed(a) + AllListed(b)
    decreases |a|
  {
    hide ItemOk, SlotsFor, ListedAs;
    if a == [] {
      assert a + b == b;
    } else {
      assert (a + b)[0] == a[0] && (a + b)[1..] == a[1..] + b;
      SlotsJoin(a[1..], b);
    }
  }

  /** In the place of a deleted slot: the listing gains the entry there and keeps everything else. */
  lemma CreateInPlace(dir: Dir, front: seq<Item>, gone: Slot, back: seq<Item>, name: Name)
    requires Plain(name) && !NeedsLfn(name) && ItemsOk(front) && ItemsOk(back) && gone[0] == DELETED
    requires Holds(dir, front + [Gone(gone)] + back)
    ensures |AllSlots(front)| < |dir|
    ensures List(dir) == AllListed(front) + AllListed(back)
    ensures List(dir[|AllSlots(front)| := ShortEntry(name)]) ==
            AllListed(front) + [Listed(ShortName(ShortEntry(name)), false, 0, 0)] + AllListed(back)
  {
    hide ItemOk, ItemsOk, AllSlots, AllListed, ListedAs, Holds, List, ShortEntry, NeedsLfn, ShortName, NewItem, Plain;
    NewItemOk(name);
    NewSlot(name);
    GoneOk(gone);
    One(Gone(gone));
    One(NewItem(name));
    Middle(front, Gone(gone), back);
    Middle(front, NewItem(name), back);
    var items, items' := front + [Gone(gone)] + back, front + [NewItem(name)] + back;
    HoldsSwapped(dir, items, items', AllSlots(front), gone, AllSlots(back), ShortEntry(name));
    ListItems(dir, items);
    ListItems(dir[|AllSlots(front)| := ShortEntry(name)], items');
    assert AllListed(front) + [] + AllListed(back) == AllListed(front) + AllListed(back);
  }

  lemma NewSlot(name: Name)
    requires Plain(name)
    ensures NewItem(name).Short? && NewItem(name).slot == ShortEntry(name)
  {
  }

  lemma GoneOk(slot: Slot)
    requires slot[0] == DELETED
    ensures ItemOk(Gone(slot))
  {
  }

  lemma HoldsSwapped(dir: Dir, items: seq<Item>, items': seq<Item>, a: Dir, x: Slot, b: Dir, y: Slot)
    requires Holds(dir, items) && ItemsOk(items') && AllSlots(items) == a + [x] + b && AllSlots(items') == a + [y] + b
    ensures |a| < |dir| && Holds(dir[|a| := y], items')
  {
    hide ItemsOk, AllSlots;
    var n, dir' := |a| + 1 + |b|, dir[|a| := y];
    assert dir[..n] == a + [x] + b;
    assert dir'[..n] == dir[..n][|a| := y] == a + [y] + b;
  }

  lemma One(item: Item)
    requires ItemOk(item) && !item.Long?
    ensures ItemsOk([item]) && AllSlots([item]) == [item.slot] && AllListed([item]) == ListedAs(item)
    ensures item.Gone? ==> ListedAs(item) == []
  {
    hide ItemOk;
    assert [item][1..] == [];
  }

  lemma Middle(front: seq<Item>, item: Item, back: seq<Item>)
    requires ItemsOk(front) && ItemsOk([item]) && ItemsOk(back)
    ensures ItemsOk(front + [item] + back)
    ensures AllSlots(front + [item] + back) == AllSlots(front) + AllSlots([item]) + AllSlots(back)
    ensures AllListed(front + [item] + back) == AllListed(front) + AllListed([item]) + AllListed(back)
  {
    hide AllSlots, AllListed, ItemsOk;
    SlotsJoin(front, [item]);
    SlotsJoin(front + [item], back);
  }

  /** At the first 0x00 slot: the same, when the slot behind it is 0x00 too or there is none. */
  lemma CreateAtEnd(dir: Dir, items: seq<Item>, name: Name)
    requires Plain(name) && !NeedsLfn(name) && Holds(dir, items) && |AllSlots(items)| < |dir|
    requires |AllSlots(items)| + 1 < |dir| ==> dir[|AllSlots(items)| + 1][0] == 0
    ensures List(dir) == AllListed(items)
    ensures List(dir[|AllSlots(items)| := ShortEntry(name)]) ==
            AllListed(items) + [Listed(ShortName(ShortEntry(name)), false, 0, 0)]
  {
    hide ItemOk, ItemsOk, AllSlots, AllListed, ListedAs, Holds, List, ShortEntry, NeedsLfn, ShortName, NewItem, Plain;
    NewItemOk(name);
    NewSlot(name);
    One(NewItem(name));
    HoldsItems(dir, items);
    SlotsJoin(items, [NewItem(name)]);
    HoldsMore(dir, items, items + [NewItem(name)], ShortEntry(name));
    ListItems(dir, items);
    ListItems(dir[|AllSlots(items)| := ShortEntry(name)], items + [NewItem(name)]);
  }

  lemma HoldsItems(dir: Dir, items: seq<Item>)
    requires Holds(dir, items)
    ensures ItemsOk(items)
  {
  }

  lemma HoldsMore(dir: Dir, items: seq<Item>, items': seq<Item>, y: Slot)
    requires Holds(dir, items) && ItemsOk(items') && AllSlots(items') == AllSlots(items) + [y]
    requires |AllSlots(items)| < |dir|
    requires |AllSlots(items)| + 1 < |dir| ==> dir[|AllSlots(items)| + 1][0] == 0
    ensures Holds(dir[|AllSlots(items)| := y], items')
  {
    hide ItemsOk, AllSlots;
    var n := |AllSlots(items)|;
    assert dir[n := y][..n + 1] == dir[..n] + [y];
  }

  // ---------------------------------------------------------------------------
  // Names that do not survive
  // ---------------------------------------------------------------------------

  /** "ab.cd.ef" is stored without long-name slots, shown as "ab.cd." and not found again. */
  lemma TwoDots()
    ensures var name := [0x61, 0x62, 0x2E, 0x63, 0x64, 0x2E, 0x65, 0x66];
            Plain(name) && !NeedsLfn(name) && !Survives(name) && !SameName(ShortName(ShortEntry(name)), name)
  {
    hide ShortEntry, ShortName, SameName, FirstDot, LastDot;
    var name: Name := [0x61, 0x62, 0x2E, 0x63, 0x64, 0x2E, 0x65, 0x66];
    DotsAt(name);
    ShortFound(name);
  }

  lemma DotsAt(name: Name)
    requires name == [0x61, 0x62, 0x2E, 0x63, 0x64, 0x2E, 0x65, 0x66]
    ensures FirstDot(name) == 2 && LastDot(name) == 5
  {
    assert name[2] == '.' as nat && name[5] == '.' as nat;
    hide FirstDot, LastDot;
  }
}
