/**
 * create_mo_file (create_mo_files.py:9-80): the binary message catalogue in
 * the layout of section 10.3 of the GNU gettext manual ("The Format of GNU
 * MO Files"), as this writer produces it. The entry list is the metadata
 * entry (empty key) followed by the translations in insertion order; keys
 * are not sorted, strings are not NUL-terminated and the hash table is
 * empty. Every number is written as a little-endian 32-bit word, and a word
 * that does not fit makes `struct.pack` raise.
 *
 * Keys and values arrive already UTF-8 encoded, as byte strings.
 */
module MoFile {
  import opened Wrappers
  import opened OrderedMap

  newtype byte = x: int | 0 <= x < 256

  type Bytes = seq<byte>

  /** The magic number of the first header word. */
  const Magic: nat := 0x950412de

  /** 2^32: `struct.pack('<I', w)` needs `w` below it. */
  const WordLimit: nat := 0x1_0000_0000

  /** Seven header words of four bytes. */
  const HeaderSize: nat := 28

  // ---------------------------------------------------------------- words

  /** `struct.pack('<I', w)`. */
  function Pack32(w: nat): (r: Bytes)
    requires w < WordLimit
    ensures |r| == 4
  {
    var w1 := w / 256;
    var w2 := w1 / 256;
    [(w % 256) as byte, (w1 % 256) as byte, (w2 % 256) as byte, (w2 / 256) as byte]
  }

  /** `struct.unpack('<I', b)`. */
  function Unpack32(b: Bytes): nat
    requires |b| == 4
  {
    b[0] as nat + 256 * (b[1] as nat + 256 * (b[2] as nat + 256 * b[3] as nat))
  }

  lemma Unpack32Pack32(w: nat)
    requires w < WordLimit
    ensures Unpack32(Pack32(w)) == w
  {
    var w1 := w / 256;
    var w2 := w1 / 256;
    assert w == w % 256 + 256 * w1;
    assert w1 == w1 % 256 + 256 * w2;
    assert w2 == w2 % 256 + 256 * (w2 / 256);
  }

  /** Every word is below 2^32. */
  predicate Fits(ws: seq<nat>) {
    forall j :: 0 <= j < |ws| ==> ws[j] < WordLimit
  }

  /** The words written one after the other. */
  function PackAll(ws: seq<nat>): (r: Bytes)
    requires Fits(ws)
    ensures |r| == 4 * |ws|
  {
    if ws == [] then [] else PackAll(ws[..|ws| - 1]) + Pack32(ws[|ws| - 1])
  }

  lemma {:induction false} PackAllAt(ws: seq<nat>, j: nat)
    requires Fits(ws) && j < |ws|
    ensures PackAll(ws)[4 * j..4 * j + 4] == Pack32(ws[j])
  {
    var init := ws[..|ws| - 1];
    if j < |init| {
      PackAllAt(init, j);
      assert PackAll(ws)[..4 * |init|] == PackAll(init);
    }
  }

  /** The word at byte `pos`. */
  function Read32(b: Bytes, pos: nat): nat
    requires pos + 4 <= |b|
  {
    Unpack32(b[pos..pos + 4])
  }

  /** Whatever follows the packed words, the word at `4 * j` reads back as `ws[j]`. */
  lemma ReadWord(ws: seq<nat>, rest: Bytes, j: nat)
    requires Fits(ws) && j < |ws|
    ensures 4 * j + 4 <= |PackAll(ws) + rest|
    ensures Read32(PackAll(ws) + rest, 4 * j) == ws[j]
  {
    PackAllAt(ws, j);
    assert (PackAll(ws) + rest)[4 * j..4 * j + 4] == PackAll(ws)[4 * j..4 * j + 4];
    Unpack32Pack32(ws[j]);
  }

  /** `b` begins with the words `ws`: word `j` reads back at byte `4 * j`. */
  predicate WordsAt(b: Bytes, ws: seq<nat>) {
    && 4 * |ws| <= |b|
    && forall j :: 0 <= j < |ws| ==> Read32(b, 4 * j) == ws[j]
  }

  /** The packed words read back, whatever follows them. */
  lemma PackedWordsAt(ws: seq<nat>, x: Bytes, y: Bytes)
    requires Fits(ws)
    ensures WordsAt(PackAll(ws) + x + y, ws)
    ensures |PackAll(ws) + x + y| == 4 * |ws| + |x| + |y|
    ensures (PackAll(ws) + x + y)[4 * |ws|..] == x + y
  {
    assert PackAll(ws) + x + y == PackAll(ws) + (x + y);
    forall j | 0 <= j < |ws| ensures Read32(PackAll(ws) + (x + y), 4 * j) == ws[j] {
      ReadWord(ws, x + y, j);
    }
  }

  // ---------------------------------------------------------------- strings

  /** Σ of the byte lengths. */
  function SumLens(strs: seq<Bytes>): nat {
    if strs == [] then 0 else SumLens(strs[..|strs| - 1]) + |strs[|strs| - 1]|
  }

  /** The strings written one after the other. */
  function Concat(strs: seq<Bytes>): (r: Bytes)
    ensures |r| == SumLens(strs)
  {
    if strs == [] then [] else Concat(strs[..|strs| - 1]) + strs[|strs| - 1]
  }

  /** String `i` lies in the concatenation right after the strings before it. */
  lemma {:induction false} ConcatAt(strs: seq<Bytes>, i: nat)
    requires i < |strs|
    ensures SumLens(strs[..i]) + |strs[i]| <= SumLens(strs)
    ensures Concat(strs)[SumLens(strs[..i])..SumLens(strs[..i]) + |strs[i]|] == strs[i]
  {
    var init := strs[..|strs| - 1];
    if i == |init| {
      assert strs[..i] == init;
    } else {
      ConcatAt(init, i);
      assert init[..i] == strs[..i];
      assert Concat(strs)[..SumLens(init)] == Concat(init);
    }
  }

  // ---------------------------------------------------------------- layout

  /** One entry of a (length, offset) table. */
  datatype Slot = Slot(length: nat, offset: nat)

  /** The table for `strs` stored back to back from byte `start`. */
  function Slots(strs: seq<Bytes>, start: nat): (r: seq<Slot>)
    ensures |r| == |strs|
  {
    if strs == [] then []
    else
      var init := strs[..|strs| - 1];
      Slots(init, start) + [Slot(|strs[|strs| - 1]|, start + SumLens(init))]
  }

  /** Entry `i` records the length of string `i` and the bytes of the strings before it. */
  lemma {:induction false} SlotsAt(strs: seq<Bytes>, start: nat, i: nat)
    requires i < |strs|
    ensures Slots(strs, start)[i] == Slot(|strs[i]|, start + SumLens(strs[..i]))
  {
    var init := strs[..|strs| - 1];
    if i < |init| {
      SlotsAt(init, start, i);
      assert init[..i] == strs[..i];
    } else {
      assert init == strs[..i];
    }
  }

  /** A table as the words written for it: length, then offset, per entry. */
  function SlotWords(slots: seq<Slot>): (r: seq<nat>)
    ensures |r| == 2 * |slots|
  {
    if slots == [] then []
    else
      var last := slots[|slots| - 1];
      SlotWords(slots[..|slots| - 1]) + [last.length, last.offset]
  }

  lemma {:induction false} SlotWordsAt(slots: seq<Slot>, i: nat)
    requires i < |slots|
    ensures SlotWords(slots)[2 * i] == slots[i].length
    ensures SlotWords(slots)[2 * i + 1] == slots[i].offset
  {
    var init := slots[..|slots| - 1];
    if i < |init| {
      SlotWordsAt(init, i);
    }
  }

  /** `7 * 4 + 16 * len(keys)`: where the key bytes start. */
  function KeyStart(n: nat): nat {
    HeaderSize + 16 * n
  }

  /** The seven header words. */
  function Header(n: nat): seq<nat> {
    [Magic, 0, n, HeaderSize, HeaderSize + 8 * n, 0, 0]
  }

  /** Every word the writer packs, in order: header, key table, value table. */
  function Words(keys: seq<Bytes>, values: seq<Bytes>): (r: seq<nat>)
    ensures |r| == 7 + 2 * |keys| + 2 * |values|
  {
    var ks := KeyStart(|keys|);
    TableWords(|keys|, Slots(keys, ks), Slots(values, ks + SumLens(keys)))
  }

  /** The header for `n` entries, then the key table, then the value table. */
  function TableWords(n: nat, kslots: seq<Slot>, vslots: seq<Slot>): (r: seq<nat>)
    ensures |r| == 7 + 2 * |kslots| + 2 * |vslots|
  {
    Header(n) + SlotWords(kslots) + SlotWords(vslots)
  }

  /** Positions in a sequence made of three parts. */
  lemma ThreeParts(h: seq<nat>, a: seq<nat>, b: seq<nat>, k: nat)
    ensures k < |a| ==> (h + a + b)[|h| + k] == a[k]
    ensures k < |b| ==> (h + a + b)[|h| + |a| + k] == b[k]
  {
  }

  /** Words `j` and `j + 1` of the key table hold key slot `i`. */
  lemma TableKeyWords(n: nat, kslots: seq<Slot>, vslots: seq<Slot>, i: nat, j: nat)
    requires i < |kslots| && j == 7 + 2 * i
    ensures j + 1 < |TableWords(n, kslots, vslots)|
    ensures TableWords(n, kslots, vslots)[j] == kslots[i].length
    ensures TableWords(n, kslots, vslots)[j + 1] == kslots[i].offset
  {
    var kw := SlotWords(kslots);
    var vw := SlotWords(vslots);
    SlotWordsAt(kslots, i);
    ThreeParts(Header(n), kw, vw, 2 * i);
    ThreeParts(Header(n), kw, vw, 2 * i + 1);
  }

  /** Words `j` and `j + 1` of the value table hold value slot `i`. */
  lemma TableValueWords(n: nat, kslots: seq<Slot>, vslots: seq<Slot>, i: nat, j: nat)
    requires i < |vslots| && j == 7 + 2 * |kslots| + 2 * i
    ensures j + 1 < |TableWords(n, kslots, vslots)|
    ensures TableWords(n, kslots, vslots)[j] == vslots[i].length
    ensures TableWords(n, kslots, vslots)[j + 1] == vslots[i].offset
  {
    var kw := SlotWords(kslots);
    var vw := SlotWords(vslots);
    SlotWordsAt(vslots, i);
    ThreeParts(Header(n), kw, vw, 2 * i);
    ThreeParts(Header(n), kw, vw, 2 * i + 1);
  }

  /** The two words of key `i`, at word `j`: its length, and its offset after the tables and the keys before it. */
  lemma KeyWords(keys: seq<Bytes>, values: seq<Bytes>, i: nat, j: nat)
    requires |keys| == |values| && i < |keys| && j == 7 + 2 * i
    ensures j + 1 < |Words(keys, values)|
    ensures Words(keys, values)[j] == |keys[i]|
    ensures Words(keys, values)[j + 1] == KeyStart(|keys|) + SumLens(keys[..i])
  {
    var ks := KeyStart(|keys|);
    SlotsAt(keys, ks, i);
    TableKeyWords(|keys|, Slots(keys, ks), Slots(values, ks + SumLens(keys)), i, j);
  }

  /** The two words of value `i`, at word `j`: its length, and its offset after all the keys and the values before it. */
  lemma ValueWords(keys: seq<Bytes>, values: seq<Bytes>, i: nat, j: nat)
    requires |keys| == |values| && i < |keys| && j == 7 + 2 * |keys| + 2 * i
    ensures j + 1 < |Words(keys, values)|
    ensures Words(keys, values)[j] == |values[i]|
    ensures Words(keys, values)[j + 1] == KeyStart(|keys|) + SumLens(keys) + SumLens(values[..i])
  {
    var ks := KeyStart(|keys|);
    var vs := ks + SumLens(keys);
    SlotsAt(values, vs, i);
    TableValueWords(|keys|, Slots(keys, ks), Slots(values, vs), i, j);
  }

  /** The file for these keys and values, or None when a word does not fit in 32 bits. */
  function Layout(keys: seq<Bytes>, values: seq<Bytes>): Option<Bytes> {
    var ws := Words(keys, values);
    if Fits(ws) then Some(PackAll(ws) + Concat(keys) + Concat(values)) else None
  }

  /** The ASCII bytes of a text made of ASCII characters. */
  function Ascii(s: string): (r: Bytes)
    requires forall i :: 0 <= i < |s| ==> s[i] as int < 128
    ensures |r| == |s|
  {
    seq(|s|, i requires 0 <= i < |s| => s[i] as int as byte)
  }

  /** The metadata entry's value. */
  const Meta: Bytes := Ascii("Content-Type: text/plain; charset=UTF-8\n")

  /** `{"": meta}` updated with the translations. */
  function WithMeta(t: Dict<Bytes, Bytes>): Dict<Bytes, Bytes> {
    UpdateAll([Entry([], Meta)], t)
  }

  /** create_mo_file: the bytes written to the output file. */
  function CreateMo(t: Dict<Bytes, Bytes>): (r: Option<Bytes>)
    ensures r.Some? <==> Fits(Words(Keys(WithMeta(t)), Values(WithMeta(t))))
    ensures r.Some? ==> Parse(r.value) == Some((Keys(WithMeta(t)), Values(WithMeta(t))))
  {
    var entries := WithMeta(t);
    var keys, values := Keys(entries), Values(entries);
    if Layout(keys, values).Some? then
      RoundTrip(keys, values);
      Layout(keys, values)
    else
      None
  }

  // ---------------------------------------------------------------- reading back

  /** Length word of table entry `i`. */
  function SlotLength(b: Bytes, table: nat, i: nat): nat
    requires table + 8 * i + 8 <= |b|
  {
    Read32(b, table + 8 * i)
  }

  /** Offset word of table entry `i`. */
  function SlotOffset(b: Bytes, table: nat, i: nat): nat
    requires table + 8 * i + 8 <= |b|
  {
    Read32(b, table + 8 * i + 4)
  }

  /** The table of `n` entries at `table`, and every string it points to, lie inside `b`. */
  predicate SlotsInside(b: Bytes, table: nat, n: nat) {
    && table + 8 * n <= |b|
    && forall i :: 0 <= i < n ==> SlotOffset(b, table, i) + SlotLength(b, table, i) <= |b|
  }

  /** The strings a table points to. */
  function ReadStrings(b: Bytes, table: nat, n: nat): (r: seq<Bytes>)
    requires SlotsInside(b, table, n)
    ensures |r| == n
  {
    seq(n, i requires 0 <= i < n => b[SlotOffset(b, table, i)..SlotOffset(b, table, i) + SlotLength(b, table, i)])
  }

  /** A reader for the layout: the header, the two tables and the strings they point to. */
  function Parse(b: Bytes): Option<(seq<Bytes>, seq<Bytes>)> {
    if |b| < HeaderSize || Read32(b, 0) != Magic then None
    else
      var n := Read32(b, 8);
      var ko := Read32(b, 12);
      var vo := Read32(b, 16);
      if SlotsInside(b, ko, n) && SlotsInside(b, vo, n) then Some((ReadStrings(b, ko, n), ReadStrings(b, vo, n)))
      else None
  }

  // ---------------------------------------------------------------- properties

  /**
   * `b` is laid out for `keys` and `values`: the words, each readable at its
   * own position, then the key bytes, then the value bytes.
   */
  predicate FileOf(b: Bytes, keys: seq<Bytes>, values: seq<Bytes>) {
    var ws := Words(keys, values);
    && WordsAt(b, ws)
    && |b| == 4 * |ws| + SumLens(keys) + SumLens(values)
    && b[4 * |ws|..] == Concat(keys) + Concat(values)
  }

  /** A successful layout is a file laid out for its keys and values. */
  lemma LayoutIs(keys: seq<Bytes>, values: seq<Bytes>)
    requires Layout(keys, values).Some?
    ensures Fits(Words(keys, values))
    ensures FileOf(Layout(keys, values).value, keys, values)
  {
    PackedWordsAt(Words(keys, values), Concat(keys), Concat(values));
  }

  /** Header word `k` reads back at byte `pos`. */
  lemma HeaderWordAt(b: Bytes, keys: seq<Bytes>, values: seq<Bytes>, k: nat, pos: nat)
    requires FileOf(b, keys, values) && k < 7 && pos == 4 * k
    ensures pos + 4 <= |b|
    ensures Read32(b, pos) == Header(|keys|)[k]
  {
    HeaderWords(keys, values, k);
  }

  /** The header words: magic, revision 0, N, key table at 28, value table at 28 + 8N, no hash table; and the total size. */
  lemma FileHeader(b: Bytes, keys: seq<Bytes>, values: seq<Bytes>)
    requires |keys| == |values| && FileOf(b, keys, values)
    ensures var n := |keys|;
      && |b| == KeyStart(n) + SumLens(keys) + SumLens(values)
      && Read32(b, 0) == Magic && Read32(b, 4) == 0 && Read32(b, 8) == n
      && Read32(b, 12) == HeaderSize && Read32(b, 16) == HeaderSize + 8 * n
      && Read32(b, 20) == 0 && Read32(b, 24) == 0
  {
    HeaderWordAt(b, keys, values, 0, 0);
    HeaderWordAt(b, keys, values, 1, 4);
    HeaderWordAt(b, keys, values, 2, 8);
    HeaderWordAt(b, keys, values, 3, 12);
    HeaderWordAt(b, keys, values, 4, 16);
    HeaderWordAt(b, keys, values, 5, 20);
    HeaderWordAt(b, keys, values, 6, 24);
  }

  /** Entry `i` of the table at `table` holds the words `ws[j]` and `ws[j + 1]`. */
  lemma ReadSlot(b: Bytes, ws: seq<nat>, table: nat, i: nat, j: nat)
    requires WordsAt(b, ws) && j + 1 < |ws| && table + 8 * i == 4 * j
    ensures table + 8 * i + 8 <= |b|
    ensures SlotLength(b, table, i) == ws[j]
    ensures SlotOffset(b, table, i) == ws[j + 1]
  {
    assert Read32(b, 4 * j) == ws[j];
    assert Read32(b, 4 * (j + 1)) == ws[j + 1];
  }

  /** A piece of the first part of `x + z` is a piece of `x`. */
  lemma FrontSlice(x: Bytes, z: Bytes, a: nat, s: Bytes)
    requires a + |s| <= |x| && x[a..a + |s|] == s
    ensures (x + z)[a..a + |s|] == s
  {
    assert (x + z)[a..a + |s|] == x[a..a + |s|];
  }

  /** A piece of the second part of `x + z` is a piece of `z`. */
  lemma EndSlice(x: Bytes, z: Bytes, a: nat, s: Bytes)
    requires a + |s| <= |z| && z[a..a + |s|] == s
    ensures |x| + a + |s| <= |x + z|
    ensures (x + z)[|x| + a..|x| + a + |s|] == s
  {
    assert (x + z)[|x| + a..|x| + a + |s|] == z[a..a + |s|];
  }

  /** Entry `i` of the table at `table` lies inside `b` and points to the bytes `s`. */
  predicate EntryIs(b: Bytes, table: nat, i: nat, s: Bytes) {
    && table + 8 * i + 8 <= |b|
    && SlotOffset(b, table, i) + SlotLength(b, table, i) <= |b|
    && SlotLength(b, table, i) == |s|
    && b[SlotOffset(b, table, i)..SlotOffset(b, table, i) + SlotLength(b, table, i)] == s
  }

  /** A table entry whose words give the length of `s` and its place `a` bytes after the words points to `s`. */
  lemma StringEntry(b: Bytes, ws: seq<nat>, table: nat, i: nat, j: nat, rest: Bytes, a: nat, s: Bytes)
    requires WordsAt(b, ws) && j + 1 < |ws| && table + 8 * i == 4 * j
    requires b[4 * |ws|..] == rest && a + |s| <= |rest| && rest[a..a + |s|] == s
    requires ws[j] == |s| && ws[j + 1] == 4 * |ws| + a
    ensures EntryIs(b, table, i, s)
  {
    ReadSlot(b, ws, table, i, j);
    assert b[4 * |ws| + a..4 * |ws| + a + |s|] == rest[a..a + |s|];
  }

  /** Key `i`'s entry points to its bytes. */
  lemma FileKey(b: Bytes, keys: seq<Bytes>, values: seq<Bytes>, i: nat)
    requires |keys| == |values| && FileOf(b, keys, values) && i < |keys|
    ensures EntryIs(b, HeaderSize, i, keys[i])
  {
    var j := 7 + 2 * i;
    KeyWords(keys, values, i, j);
    ConcatAt(keys, i);
    FrontSlice(Concat(keys), Concat(values), SumLens(keys[..i]), keys[i]);
    StringEntry(b, Words(keys, values), HeaderSize, i, j, Concat(keys) + Concat(values), SumLens(keys[..i]), keys[i]);
  }

  /** Key `i` starts at 28 + 16N + the bytes of the keys before it. */
  lemma KeyOffset(b: Bytes, keys: seq<Bytes>, values: seq<Bytes>, i: nat)
    requires |keys| == |values| && FileOf(b, keys, values) && i < |keys|
    ensures HeaderSize + 8 * i + 8 <= |b|
    ensures SlotOffset(b, HeaderSize, i) == KeyStart(|keys|) + SumLens(keys[..i])
  {
    var j := 7 + 2 * i;
    KeyWords(keys, values, i, j);
    ReadSlot(b, Words(keys, values), HeaderSize, i, j);
  }

  /** Value `i`'s entry points to its bytes. */
  lemma FileValue(b: Bytes, keys: seq<Bytes>, values: seq<Bytes>, vt: nat, i: nat)
    requires |keys| == |values| && FileOf(b, keys, values) && i < |values| && vt == HeaderSize + 8 * |keys|
    ensures EntryIs(b, vt, i, values[i])
  {
    var j := 7 + 2 * |keys| + 2 * i;
    ValueWords(keys, values, i, j);
    ConcatAt(values, i);
    EndSlice(Concat(keys), Concat(values), SumLens(values[..i]), values[i]);
    StringEntry(b, Words(keys, values), vt, i, j, Concat(keys) + Concat(values), SumLens(keys) + SumLens(values[..i]), values[i]);
  }

  /** Value `i` starts after all the keys and the values before it. */
  lemma ValueOffset(b: Bytes, keys: seq<Bytes>, values: seq<Bytes>, vt: nat, i: nat)
    requires |keys| == |values| && FileOf(b, keys, values) && i < |values| && vt == HeaderSize + 8 * |keys|
    ensures vt + 8 * i + 8 <= |b|
    ensures SlotOffset(b, vt, i) == KeyStart(|keys|) + SumLens(keys) + SumLens(values[..i])
  {
    var j := 7 + 2 * |keys| + 2 * i;
    ValueWords(keys, values, i, j);
    ReadSlot(b, Words(keys, values), vt, i, j);
  }

  /** A file whose header and tables describe `keys` and `values` parses to them. */
  lemma ParseOf(b: Bytes, keys: seq<Bytes>, values: seq<Bytes>, vt: nat)
    requires |keys| == |values| && KeyStart(|keys|) <= |b|
    requires Read32(b, 0) == Magic && Read32(b, 8) == |keys|
    requires Read32(b, 12) == HeaderSize && Read32(b, 16) == vt && vt == HeaderSize + 8 * |keys|
    requires forall i :: 0 <= i < |keys| ==> EntryIs(b, HeaderSize, i, keys[i])
    requires forall i :: 0 <= i < |values| ==> EntryIs(b, vt, i, values[i])
    ensures Parse(b) == Some((keys, values))
  {
    StringsAre(b, HeaderSize, keys);
    StringsAre(b, vt, values);
  }

  /** A file laid out for `keys` and `values` reads back as exactly those keys and values. */
  lemma FileParses(b: Bytes, keys: seq<Bytes>, values: seq<Bytes>)
    requires |keys| == |values| && FileOf(b, keys, values)
    ensures Parse(b) == Some((keys, values))
  {
    FileHeader(b, keys, values);
    forall i | 0 <= i < |keys| ensures EntryIs(b, HeaderSize, i, keys[i]) {
      FileKey(b, keys, values, i);
    }
    var vt := HeaderSize + 8 * |keys|;
    forall i | 0 <= i < |values| ensures EntryIs(b, vt, i, values[i]) {
      FileValue(b, keys, values, vt, i);
    }
    ParseOf(b, keys, values, vt);
  }

  /** Reading the written file back gives exactly the keys and the values that were written. */
  lemma RoundTrip(keys: seq<Bytes>, values: seq<Bytes>)
    requires |keys| == |values| && Layout(keys, values).Some?
    ensures Parse(Layout(keys, values).value) == Some((keys, values))
  {
    LayoutIs(keys, values);
    FileParses(Layout(keys, values).value, keys, values);
  }

  /** A table whose every entry points to the string of the same index reads back as those strings. */
  lemma StringsAre(b: Bytes, table: nat, strs: seq<Bytes>)
    requires table + 8 * |strs| <= |b|
    requires forall i :: 0 <= i < |strs| ==> EntryIs(b, table, i, strs[i])
    ensures SlotsInside(b, table, |strs|)
    ensures ReadStrings(b, table, |strs|) == strs
  {
    forall i | 0 <= i < |strs| ensures SlotOffset(b, table, i) + SlotLength(b, table, i) <= |b| {
      assert EntryIs(b, table, i, strs[i]);
    }
    var r := ReadStrings(b, table, |strs|);
    forall i | 0 <= i < |strs| ensures r[i] == strs[i] {
      assert EntryIs(b, table, i, strs[i]);
    }
  }

  /** No word overflows as long as the whole file stays below 4 GiB. */
  lemma SmallFilesFit(keys: seq<Bytes>, values: seq<Bytes>)
    requires |keys| == |values|
    requires KeyStart(|keys|) + SumLens(keys) + SumLens(values) < WordLimit
    ensures Layout(keys, values).Some?
  {
    assert Fits(Words(keys, values)) by {
      var n := |keys|;
      HeaderFits(keys, values);
      KeyPairsFit(keys, values);
      ValuePairsFit(keys, values, 7 + 2 * n);
      TablesFit(Words(keys, values), n, n, 7 + 2 * n);
    }
  }

  lemma HeaderFits(keys: seq<Bytes>, values: seq<Bytes>)
    requires KeyStart(|keys|) < WordLimit
    ensures forall k :: 0 <= k < 7 ==> Words(keys, values)[k] < WordLimit
  {
    forall k | 0 <= k < 7 ensures Words(keys, values)[k] < WordLimit {
      HeaderWords(keys, values, k);
    }
  }

  lemma KeyPairsFit(keys: seq<Bytes>, values: seq<Bytes>)
    requires |keys| == |values|
    requires KeyStart(|keys|) + SumLens(keys) < WordLimit
    ensures forall i :: 0 <= i < |keys| ==> PairFits(Words(keys, values), 7, i)
  {
    forall i | 0 <= i < |keys| ensures PairFits(Words(keys, values), 7, i) {
      KeyPairFits(keys, values, i);
    }
  }

  lemma KeyPairFits(keys: seq<Bytes>, values: seq<Bytes>, i: nat)
    requires |keys| == |values| && i < |keys|
    requires KeyStart(|keys|) + SumLens(keys) < WordLimit
    ensures PairFits(Words(keys, values), 7, i)
  {
    KeyWords(keys, values, i, 7 + 2 * i);
    ConcatAt(keys, i);
    assert 7 + 2 * i + 1 < |Words(keys, values)|;
    assert Words(keys, values)[7 + 2 * i] < WordLimit;
    assert Words(keys, values)[7 + 2 * i + 1] < WordLimit;
  }

  lemma ValuePairsFit(keys: seq<Bytes>, values: seq<Bytes>, vt: nat)
    requires |keys| == |values| && vt == 7 + 2 * |keys|
    requires KeyStart(|keys|) + SumLens(keys) + SumLens(values) < WordLimit
    ensures forall i :: 0 <= i < |values| ==> PairFits(Words(keys, values), vt, i)
  {
    forall i | 0 <= i < |values| ensures PairFits(Words(keys, values), vt, i) {
      ValuePairFits(keys, values, vt, i);
    }
  }

  lemma ValuePairFits(keys: seq<Bytes>, values: seq<Bytes>, vt: nat, i: nat)
    requires |keys| == |values| && vt == 7 + 2 * |keys| && i < |values|
    requires KeyStart(|keys|) + SumLens(keys) + SumLens(values) < WordLimit
    ensures PairFits(Words(keys, values), vt, i)
  {
    ValueWords(keys, values, i, vt + 2 * i);
    ConcatAt(values, i);
    assert vt + 2 * i + 1 < |Words(keys, values)|;
    assert Words(keys, values)[vt + 2 * i] < WordLimit;
    assert Words(keys, values)[vt + 2 * i + 1] < WordLimit;
  }

  /** The first seven words are the header. */
  lemma HeaderWords(keys: seq<Bytes>, values: seq<Bytes>, k: nat)
    requires k < 7
    ensures Words(keys, values)[k] == Header(|keys|)[k]
  {
  }

  /** Both words of pair `i` of the table that starts at word `h` fit. */
  predicate PairFits(ws: seq<nat>, h: nat, i: nat) {
    && h + 2 * i + 1 < |ws|
    && ws[h + 2 * i] < WordLimit
    && ws[h + 2 * i + 1] < WordLimit
  }

  /** Header, key table and value table all fit: so does every word. */
  lemma TablesFit(ws: seq<nat>, m1: nat, m2: nat, vt: nat)
    requires vt == 7 + 2 * m1 && |ws| == vt + 2 * m2
    requires forall k :: 0 <= k < 7 ==> ws[k] < WordLimit
    requires forall i :: 0 <= i < m1 ==> PairFits(ws, 7, i)
    requires forall i :: 0 <= i < m2 ==> PairFits(ws, vt, i)
    ensures Fits(ws)
  {
    forall j | 7 <= j < |ws| ensures ws[j] < WordLimit {
      if j < 7 + 2 * m1 {
        assert PairFits(ws, 7, (j - 7) / 2);
      } else {
        assert PairFits(ws, vt, (j - vt) / 2);
      }
    }
  }

  /** Without an empty key among the translations, the entries are the metadata entry followed by the translations, in order. */
  lemma MetaFirst(t: Dict<Bytes, Bytes>)
    requires Lookup(t, []).None?
    ensures WithMeta(t) == [Entry([], Meta)] + t
    ensures |Keys(WithMeta(t))| == |t| + 1
  {
    var meta: Dict<Bytes, Bytes> := [Entry([], Meta)];
    forall k | Lookup(t, k).Some? ensures Lookup(meta, k).None? {
      assert k != [];
    }
    UpdateAllFresh(meta, t);
  }

  /** An empty key among the translations replaces the metadata value; every other translation keeps its value. */
  lemma MetaOverridden(t: Dict<Bytes, Bytes>, k: Bytes)
    ensures Lookup(WithMeta(t), k) == if Lookup(t, k).Some? then Lookup(t, k) else if k == [] then Some(Meta) else None
  {
  }

  // ---------------------------------------------------------------- the writer

  lemma SlotsStep(strs: seq<Bytes>, start: nat, i: nat)
    requires i < |strs|
    ensures SumLens(strs[..i + 1]) == SumLens(strs[..i]) + |strs[i]|
    ensures Slots(strs[..i + 1], start) == Slots(strs[..i], start) + [Slot(|strs[i]|, start + SumLens(strs[..i]))]
  {
    assert strs[..i + 1][..i] == strs[..i];
  }

  lemma ConcatStep(strs: seq<Bytes>, i: nat)
    requires i < |strs|
    ensures Concat(strs[..i + 1]) == Concat(strs[..i]) + strs[i]
  {
    assert strs[..i + 1][..i] == strs[..i];
  }

  lemma PackStep(ws: seq<nat>, j: nat)
    requires j < |ws| && Fits(ws[..j]) && ws[j] < WordLimit
    ensures Fits(ws[..j + 1])
    ensures PackAll(ws[..j + 1]) == PackAll(ws[..j]) + Pack32(ws[j])
  {
    assert ws[..j + 1][..j] == ws[..j];
  }

  /** The loop that builds `koffsets` (or `voffsets`): a running offset from `start`. */
  method Offsets(strs: seq<Bytes>, start: nat) returns (slots: seq<Slot>)
    ensures slots == Slots(strs, start)
  {
    slots := [];
    var offset := start;
    var i := 0;
    while i < |strs|
      invariant i <= |strs|
      invariant slots == Slots(strs[..i], start)
      invariant offset == start + SumLens(strs[..i])
    {
      SlotsStep(strs, start, i);
      slots := slots + [Slot(|strs[i]|, offset)];
      offset := offset + |strs[i]|;
      i := i + 1;
    }
    assert strs[..i] == strs;
  }

  /** The `struct.pack('<I', w)` writes, one word after the other; None at the first word of 2^32 or more. */
  method PackWords(words: seq<nat>) returns (out: Option<Bytes>)
    ensures Fits(words) ==> out == Some(PackAll(words))
    ensures !Fits(words) ==> out == None
  {
    var file: Bytes := [];
    var j := 0;
    while j < |words|
      invariant j <= |words|
      invariant Fits(words[..j])
      invariant file == PackAll(words[..j])
    {
      if words[j] >= WordLimit {
        return None;
      }
      PackStep(words, j);
      file := file + Pack32(words[j]);
      j := j + 1;
    }
    assert words[..j] == words;
    return Some(file);
  }

  /** The `f.write(k)` loop: the strings appended one after the other. */
  method WriteAll(file: Bytes, strs: seq<Bytes>) returns (r: Bytes)
    ensures r == file + Concat(strs)
    ensures |r| == |file| + SumLens(strs)
  {
    r := file;
    var i := 0;
    while i < |strs|
      invariant i <= |strs|
      invariant r == file + Concat(strs[..i])
    {
      ConcatStep(strs, i);
      r := r + strs[i];
      i := i + 1;
    }
    assert strs[..i] == strs;
  }

  /** The words built from the two offset tables are the words of the file. */
  lemma WordsOfSlots(keys: seq<Bytes>, values: seq<Bytes>, ks: nat, vs: nat, kslots: seq<Slot>, vslots: seq<Slot>)
    requires ks == KeyStart(|keys|) && vs == ks + SumLens(keys)
    requires kslots == Slots(keys, ks) && vslots == Slots(values, vs)
    ensures TableWords(|keys|, kslots, vslots) == Words(keys, values)
  {
  }

  /** create_mo_file's result once its words are known. */
  lemma CreateMoIs(t: Dict<Bytes, Bytes>, words: seq<nat>)
    requires words == Words(Keys(WithMeta(t)), Values(WithMeta(t)))
    ensures Fits(words) ==> CreateMo(t) == Some(PackAll(words) + Concat(Keys(WithMeta(t))) + Concat(Values(WithMeta(t))))
    ensures !Fits(words) ==> CreateMo(t) == None
  {
  }

  /**
   * The body of create_mo_file: the entries, the two offset tables, then the
   * writes in file order. A word of 2^32 or more stops the writer
   * (struct.error).
   */
  method WriteMo(t: Dict<Bytes, Bytes>) returns (out: Option<Bytes>)
    ensures out == CreateMo(t)
  {
    var entries := UpdateAll([Entry([], Meta)], t);
    var keys := Keys(entries);
    var values := Values(entries);
    var n := |keys|;
    var keystart := KeyStart(n);
    var valuestart := keystart + SumLens(keys);
    var koffsets := Offsets(keys, keystart);
    var voffsets := Offsets(values, valuestart);
    var words := TableWords(n, koffsets, voffsets);
    WordsOfSlots(keys, values, keystart, valuestart, koffsets, voffsets);
    assert entries == WithMeta(t);
    CreateMoIs(t, words);
    var packed := PackWords(words);
    if packed.None? {
      return None;
    }
    var file := WriteAll(packed.value, keys);
    file := WriteAll(file, values);
    return Some(file);
  }

  // ---------------------------------------------------------------- french_translations

  /** `{k: k for k in english.keys()}`: every English key, in order, mapped to itself. */
  function FrenchTranslations(english: Dict<string, string>): (r: Dict<string, string>)
    ensures Keys(r) == Keys(english)
    ensures forall e :: e in r ==> e.val == e.key
    ensures forall k :: Lookup(r, k).Some? <==> Lookup(english, k).Some?
    ensures forall k :: Lookup(r, k).Some? ==> Lookup(r, k).value == k
  {
    var r := seq(|english|, i requires 0 <= i < |english| => Entry(english[i].key, english[i].key));
    assert Distinct(r) by {
      forall a, b | 0 <= a < b < |r| ensures r[a].key != r[b].key {
        assert english[a].key != english[b].key;
      }
    }
    r
  }
}
