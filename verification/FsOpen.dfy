/** Opening a file by path: the asynchronous directory search of kernel/fs/fs_open.c, one sector per step, against a
flat linear search of the directories. */
module FsOpen {
  import opened Options
  import opened Words
  import opened IoScheduler
  import opened Volume

  const SPACE: Byte := 0x20
  const DOT: Byte := 0x2E
  const SLASH: Byte := 0x2F
  const NAME_LENGTH: nat := 11
  const ENTRY_SIZE: nat := 32
  const ENTRIES_PER_SECTOR: nat := 16

  // ---------------------------------------------------------------- names

  function ToUpper(c: Byte): Byte {
    if 0x61 <= c <= 0x7A then c - 32 else c
  }

  /** fat_valid_char. */
  predicate ValidChar(c: Byte) {
    c >= 0x20 && c !in {0x22, 0x2A, 0x2B, 0x2C, 0x2F, 0x3A, 0x3B, 0x3C, 0x3D, 0x3E, 0x3F, 0x5B, 0x5C, 0x5D, 0x7C}
  }

  predicate AllValid(s: seq<Byte>) {
    forall i :: 0 <= i < |s| ==> ValidChar(s[i])
  }

  /** The first dot behind the first character, or the length. */
  function DotAt(s: seq<Byte>, from: nat): (d: nat)
    requires 1 <= from
    ensures from <= |s| ==> from <= d <= |s|
    ensures from > |s| ==> d == |s|
    ensures d < |s| ==> s[d] == DOT
    ensures forall i :: from <= i < d ==> s[i] != DOT
    decreases |s| - from
  {
    if from >= |s| then |s| else if s[from] == DOT then from else DotAt(s, from + 1)
  }

  function Field(s: seq<Byte>, width: nat): (f: seq<Byte>)
    ensures |f| == width
  {
    seq(width, i requires 0 <= i < width => if i < |s| then ToUpper(s[i]) else SPACE)
  }

  function Base(s: seq<Byte>): seq<Byte> {
    s[..DotAt(s, 1)]
  }

  function Extension(s: seq<Byte>): seq<Byte> {
    if DotAt(s, 1) < |s| then s[DotAt(s, 1) + 1..] else []
  }

  predicate Packable(s: seq<Byte>) {
    AllValid(Base(s)) && AllValid(Extension(s))
  }

  /** The eleven bytes make_fat_83_name leaves for a component: base and extension split at the first dot that is not
      its first character, upper case, cut off and padded; blank when a character is not allowed. */
  function Pack(s: seq<Byte>): (n: seq<Byte>)
    ensures |n| == NAME_LENGTH
  {
    if Packable(s) then Field(Base(s), 8) + Field(Extension(s), 3) else Field([], NAME_LENGTH)
  }

  /** Names that differ in case only are the same directory entry. */
  lemma {:induction false} PackIgnoresCase(s: seq<Byte>, t: seq<Byte>)
    requires |s| == |t| && forall i :: 0 <= i < |s| ==> ToUpper(s[i]) == ToUpper(t[i])
    ensures Pack(s) == Pack(t)
  {
    SameDot(s, t, 1);
    SameField(Base(s), Base(t), 8);
    SameField(Extension(s), Extension(t), 3);
  }

  /** A base, a dot and an extension: each in its own columns, upper case and padded; a base alone has a blank
      extension. */
  lemma {:induction false} PackBaseAndExtension(base: seq<Byte>, ext: seq<Byte>)
    requires base != [] && DOT !in base[1..] && AllValid(base) && AllValid(ext)
    ensures Pack(base + [DOT] + ext) == Field(base, 8) + Field(ext, 3)
    ensures Pack(base) == Field(base, 8) + Field([], 3)
  {
    var s := base + [DOT] + ext;
    DotBehind(base, [DOT] + ext, 1);
    DotBehind(base, [], 1);
    assert s == base + ([DOT] + ext) && base + [] == base;
    assert Base(s) == base && Extension(s) == ext;
    assert Base(base) == base && Extension(base) == [];
  }

  lemma {:induction false} DotBehind(base: seq<Byte>, rest: seq<Byte>, from: nat)
    requires 1 <= from <= |base| && DOT !in base[1..] && (rest != [] ==> rest[0] == DOT)
    ensures DotAt(base + rest, from) == |base|
    decreases |base| - from
  {
    if from < |base| {
      assert (base + rest)[from] == base[1..][from - 1];
      DotBehind(base, rest, from + 1);
    }
  }

  lemma {:induction false} SameDot(s: seq<Byte>, t: seq<Byte>, from: nat)
    requires |s| == |t| && forall i :: 0 <= i < |s| ==> ToUpper(s[i]) == ToUpper(t[i])
    requires from >= 1
    ensures DotAt(s, from) == DotAt(t, from)
    decreases |s| - from
  {
    if from < |s| {
      SameDot(s, t, from + 1);
    }
  }

  lemma {:induction false} SameField(s: seq<Byte>, t: seq<Byte>, width: nat)
    requires |s| == |t| && forall i :: 0 <= i < |s| ==> ToUpper(s[i]) == ToUpper(t[i])
    ensures (AllValid(s) <==> AllValid(t)) && Field(s, width) == Field(t, width)
  {
    assert forall i :: 0 <= i < |s| ==> (ValidChar(s[i]) <==> ValidChar(t[i]));
  }

  method FindDot(input: seq<Byte>) returns (dot: nat)
    ensures dot == DotAt(input, 1)
  {
    dot := |input|;
    var i := 1;
    while i < |input| && dot == |input|
      invariant 1 <= i && dot <= |input|
      invariant dot == |input| ==> DotAt(input, 1) == DotAt(input, i)
      invariant dot < |input| ==> dot == DotAt(input, 1)
      decreases |input| - i, dot == |input|
    {
      if input[i] == DOT {
        dot := i;
      } else {
        i := i + 1;
      }
    }
  }

  /** make_fat_83_name on a string of any length; the result says whether every character was allowed. */
  method MakeFat83Name(input: seq<Byte>) returns (ok: bool, out: array<Byte>)
    ensures fresh(out) && out.Length == NAME_LENGTH && out[..] == Pack(input)
    ensures ok <==> Packable(input)
  {
    out := new Byte[NAME_LENGTH](_ => SPACE);
    var dot := FindDot(input);
    var base := input[..dot];
    var ext := if dot < |input| then input[dot + 1..] else [];
    ok := Validate(base);
    if ok { ok := Validate(ext); }
    if ok {
      Fill(out, 0, base, 8);
      Fill(out, 8, ext, 3);
      assert out[..] == out[..8] + out[8..];
    } else {
      assert out[..] == Field([], NAME_LENGTH);
    }
  }

  method Validate(s: seq<Byte>) returns (ok: bool)
    ensures ok <==> AllValid(s)
  {
    ok := true;
    for i := 0 to |s|
      invariant ok <==> AllValid(s[..i])
    {
      assert s[..i + 1] == s[..i] + [s[i]];
      if !ValidChar(s[i]) { ok := false; }
    }
    assert s[..|s|] == s;
  }

  method Fill(out: array<Byte>, at: nat, s: seq<Byte>, width: nat)
    requires at + width <= out.Length && forall k :: at <= k < at + width ==> out[k] == SPACE
    modifies out
    ensures out[at..at + width] == Field(s, width)
    ensures forall k :: 0 <= k < out.Length && !(at <= k < at + width) ==> out[k] == old(out[k])
  {
    var n := 0;
    while n < |s| && n < width
      invariant n <= |s| && n <= width
      invariant forall k :: at <= k < at + width ==> out[k] == if k - at < n then ToUpper(s[k - at]) else SPACE
      invariant forall k :: 0 <= k < out.Length && !(at <= k < at + width) ==> out[k] == old(out[k])
    {
      out[at + n] := ToUpper(s[n]);
      n := n + 1;
    }
  }

  // ---------------------------------------------------------------- the path

  /** path_walker_t: `rest` is what follows the component being searched, absent after the last one. */
  datatype Walker = Walker(rest: Option<seq<Byte>>, name: seq<Byte>)

  /** The next component and what follows it; none at the end of the path.  One leading slash is skipped. */
  function NextComponent(path: seq<Byte>): Option<(seq<Byte>, seq<Byte>)> {
    var p := if path != [] && path[0] == SLASH then path[1..] else path;
    if p == [] then None else Some((p[..SlashAt(p, 0)], p[SlashAt(p, 0)..]))
  }

  function SlashAt(s: seq<Byte>, from: nat): (d: nat)
    ensures from <= |s| ==> from <= d <= |s|
    ensures from > |s| ==> d == |s|
    ensures d < |s| ==> s[d] == SLASH
    ensures forall i :: from <= i < d ==> s[i] != SLASH
    decreases |s| - from
  {
    if from >= |s| then |s| else if s[from] == SLASH then from else SlashAt(s, from + 1)
  }

  /** path_walker_advance: the packed name is renewed only when something follows the component. */
  function Advance(w: Walker): (w': Walker)
    requires w.rest.Some?
    ensures w'.rest.Some? ==> |w'.rest.value| < |w.rest.value|
  {
    match NextComponent(w.rest.value)
    case None => w.(rest := None)
    case Some((component, rest)) =>
      if rest == [] then w.(rest := None)
      else
        Shorter(w.rest.value);
        Walker(Some(rest), Pack(component))
  }

  lemma {:induction false} Shorter(path: seq<Byte>)
    requires NextComponent(path).Some? && NextComponent(path).value.1 != []
    ensures |NextComponent(path).value.1| < |path|
  {
  }

  /** fs_open_submit: advance once, then pack the first component in any case. */
  function Begin(path: seq<Byte>): Walker {
    var w := Advance(Walker(Some(path), []));
    w.(name := Pack(if NextComponent(path).Some? then NextComponent(path).value.0 else []))
  }

  /** A path of one component, with or without a leading slash, is searched under that component's name. */
  lemma {:induction false} SingleComponent(component: seq<Byte>)
    requires component != [] && SLASH !in component
    ensures Begin(component) == Walker(None, Pack(component))
    ensures Begin([SLASH] + component) == Walker(None, Pack(component))
  {
    assert SlashAt(component, 0) == |component|;
    assert ([SLASH] + component)[1..] == component;
    assert component[..|component|] == component && component[|component|..] == [];
  }

  /** Of a longer path the last component is never packed: the search for it goes on under the name before. */
  lemma {:induction false} LastComponentLost(w: Walker, component: seq<Byte>)
    requires component != [] && SLASH !in component && w.rest == Some([SLASH] + component)
    ensures Advance(w) == Walker(None, w.name)
    ensures Advance(w).name == Pack(component) <==> w.name == Pack(component)
  {
    assert ([SLASH] + component)[1..] == component;
    assert SlashAt(component, 0) == |component|;
    assert component[|component|..] == [];
  }

  /** "/A/B" looks for "A" in the directory "A". */
  lemma {:induction false} LastComponentExample()
    ensures var a, b: seq<Byte> := [0x41], [0x42];
      Advance(Begin([SLASH] + a + [SLASH] + b)) == Walker(None, Pack(a)) && Pack(a) != Pack(b)
  {
    var a, b: seq<Byte> := [0x41], [0x42];
    assert [SLASH] + a + [SLASH] + b == [SLASH] + a + ([SLASH] + b);
    MiddleComponent(Walker(Some([SLASH] + a + ([SLASH] + b)), []), a, [SLASH] + b);
    SlashBehind(a, [SLASH] + b, 0);
    assert ([SLASH] + a + ([SLASH] + b))[1..] == a + ([SLASH] + b);
    assert (a + ([SLASH] + b))[..1] == a;
    LastComponentLost(Walker(Some([SLASH] + b), Pack(a)), b);
    assert Base(a) == a && Base(b) == b && Packable(a) && Packable(b);
    assert Pack(a)[0] == 0x41 && Pack(b)[0] == 0x42;
  }

  /** Every component before it is searched under its own name. */
  lemma {:induction false} MiddleComponent(w: Walker, component: seq<Byte>, rest: seq<Byte>)
    requires component != [] && SLASH !in component && rest != [] && rest[0] == SLASH
    requires w.rest == Some([SLASH] + component + rest)
    ensures Advance(w) == Walker(Some(rest), Pack(component))
  {
    var p := component + rest;
    assert ([SLASH] + component + rest)[1..] == p;
    SlashBehind(component, rest, 0);
    assert p[..|component|] == component && p[|component|..] == rest;
  }

  lemma {:induction false} SlashBehind(component: seq<Byte>, rest: seq<Byte>, from: nat)
    requires SLASH !in component && rest != [] && rest[0] == SLASH && from <= |component|
    ensures SlashAt(component + rest, from) == |component|
    decreases |component| - from
  {
    if from < |component| {
      assert (component + rest)[from] == component[from];
      SlashBehind(component, rest, from + 1);
    }
  }

  // ---------------------------------------------------------------- directories

  /** The fields of FAT_DIRECTORY the search reads. */
  datatype Entry = Entry(name: seq<Byte>, attr: Byte, cluster: Word, size: Word)

  function Half(rx: Sector, at: nat): Word
    requires at + 1 < SECTOR_SIZE
  {
    (rx[at] as int) + 0x100 * (rx[at + 1] as int)
  }

  /** Slot `i` of a directory sector (include/fat_directory.h). */
  function EntryAt(rx: Sector, i: nat): (e: Entry)
    requires i < ENTRIES_PER_SECTOR
    ensures |e.name| == NAME_LENGTH
  {
    var at := ENTRY_SIZE * i;
    Entry(rx[at..at + NAME_LENGTH], rx[at + 11], Wrap(0x1_0000 * Half(rx, at + 20) + Half(rx, at + 26)),
          Wrap(Half(rx, at + 28) + 0x1_0000 * Half(rx, at + 30)))
  }

  function Le16(x: Word): (b: seq<Byte>)
    requires x < 0x1_0000
  {
    [x % 0x100, x / 0x100]
  }

  /** A FAT_DIRECTORY field by field, in the order of its declaration; `rest` are the fields the search passes over. */
  function Layout(name: seq<Byte>, attr: Byte, rest: seq<Byte>, high: Word, write: seq<Byte>, low: Word,
          size: Word): seq<Byte>
    requires high < 0x1_0000 && low < 0x1_0000
  {
    name + [attr] + rest + Le16(high) + write + Le16(low) + Le16(size % 0x1_0000) + Le16(size / 0x1_0000)
  }

  /** The search reads each field where the declaration puts it. */
  lemma {:induction false} LayoutRead(rx: Sector, i: nat, name: seq<Byte>, attr: Byte, rest: seq<Byte>, high: Word,
                     write: seq<Byte>, low: Word, size: Word)
    requires i < ENTRIES_PER_SECTOR && |name| == NAME_LENGTH && |rest| == 8 && |write| == 4
    requires high < 0x1_0000 && low < 0x1_0000
    requires rx[ENTRY_SIZE * i..ENTRY_SIZE * (i + 1)] == Layout(name, attr, rest, high, write, low, size)
    ensures EntryAt(rx, i) == Entry(name, attr, 0x1_0000 * high + low, size)
  {
    hide Layout, Le16, Half;
    var at := ENTRY_SIZE * i;
    var bytes := rx[at..at + ENTRY_SIZE];
    LayoutFields(name, attr, rest, high, write, low, size);
    assert rx[at..at + NAME_LENGTH] == bytes[..NAME_LENGTH] && rx[at + 11] == bytes[11];
    HalfIs(rx, at + 20, bytes, 20, high);
    HalfIs(rx, at + 26, bytes, 26, low);
    HalfIs(rx, at + 28, bytes, 28, size % 0x1_0000);
    HalfIs(rx, at + 30, bytes, 30, size / 0x1_0000);
  }

  lemma {:induction false} LayoutFields(name: seq<Byte>, attr: Byte, rest: seq<Byte>, high: Word, write: seq<Byte>,
                     low: Word, size: Word)
    requires |name| == NAME_LENGTH && |rest| == 8 && |write| == 4 && high < 0x1_0000 && low < 0x1_0000
    ensures var bytes := Layout(name, attr, rest, high, write, low, size);
      && |bytes| == ENTRY_SIZE && bytes[..NAME_LENGTH] == name && bytes[11] == attr
      && bytes[20..22] == Le16(high) && bytes[26..28] == Le16(low)
      && bytes[28..30] == Le16(size % 0x1_0000) && bytes[30..32] == Le16(size / 0x1_0000)
  {
    var bytes := Layout(name, attr, rest, high, write, low, size);
    var a, b, c := Le16(high), Le16(low), Le16(size % 0x1_0000);
    assert |a| == |b| == |c| == 2;
  }

  lemma {:induction false} HalfIs(rx: Sector, at: nat, bytes: seq<Byte>, k: nat, x: Word)
    requires x < 0x1_0000 && k + 2 <= |bytes| == ENTRY_SIZE && bytes[k..k + 2] == Le16(x)
    requires at >= k && at - k + ENTRY_SIZE <= SECTOR_SIZE && rx[at - k..at - k + ENTRY_SIZE] == bytes
    ensures Half(rx, at) == x
  {
    assert rx[at] == bytes[k] == bytes[k..k + 2][0];
    assert rx[at + 1] == bytes[k + 1] == bytes[k..k + 2][1];
  }

  predicate IsLast(e: Entry)
    requires |e.name| == NAME_LENGTH
  {
    e.name[0] == 0
  }

  /** Deleted entries and parts of long names are passed over. */
  predicate Skipped(e: Entry)
    requires |e.name| == NAME_LENGTH
  {
    e.name[0] == 0xE5 || e.attr % 16 == 15
  }

  predicate Matches(e: Entry, name: seq<Byte>)
    requires |e.name| == NAME_LENGTH
  {
    !IsLast(e) && !Skipped(e) && e.name == name
  }

  datatype Hit = Ended | Missed | Found(entry: Entry)

  /** The search of one sector, from slot `i` on. */
  function Scan(rx: Sector, name: seq<Byte>, i: nat): Hit
    requires i <= ENTRIES_PER_SECTOR
    decreases ENTRIES_PER_SECTOR - i
  {
    if i == ENTRIES_PER_SECTOR then Missed
    else if IsLast(EntryAt(rx, i)) then Ended
    else if Matches(EntryAt(rx, i), name) then Found(EntryAt(rx, i))
    else Scan(rx, name, i + 1)
  }

  predicate Entries(es: seq<Entry>) {
    forall i :: 0 <= i < |es| ==> |es[i].name| == NAME_LENGTH
  }

  /** The flat linear search: the first matching entry before the end marker. */
  function Lookup(es: seq<Entry>, name: seq<Byte>): Hit
    requires Entries(es)
    decreases |es|
  {
    if es == [] then Missed
    else if IsLast(es[0]) then Ended
    else if Matches(es[0], name) then Found(es[0])
    else Lookup(es[1..], name)
  }

  /** What that search finds, said of positions. */
  lemma {:induction false} LookupFirst(es: seq<Entry>, name: seq<Byte>, i: nat)
    requires Entries(es) && i < |es|
    requires forall j :: 0 <= j < i ==> !IsLast(es[j]) && !Matches(es[j], name)
    ensures Matches(es[i], name) ==> Lookup(es, name) == Found(es[i])
    ensures IsLast(es[i]) ==> Lookup(es, name) == Ended
    decreases |es|
  {
    if i > 0 {
      LookupFirst(es[1..], name, i - 1);
    }
  }

  lemma {:induction false} LookupFound(es: seq<Entry>, name: seq<Byte>)
    requires Entries(es) && Lookup(es, name).Found?
    ensures |Lookup(es, name).entry.name| == NAME_LENGTH && Matches(Lookup(es, name).entry, name)
    decreases |es|
  {
    if !IsLast(es[0]) && !Matches(es[0], name) {
      LookupFound(es[1..], name);
    }
  }

  /** A name packs to one that begins with 0xE5, the mark of a deleted entry, exactly when it begins with it. */
  lemma {:induction false} EscapedName(component: seq<Byte>)
    ensures Pack(component)[0] == 0xE5 <==> component != [] && Packable(component) && component[0] == 0xE5
  {
  }

  /** Directories therefore keep such a name with 0x05 in front.  The search does not turn that back: it finds such a
      name neither as it is nor as it is kept, and an entry kept so is found under no name at all. */
  lemma {:induction false} EscapedNeverFound(es: seq<Entry>, component: seq<Byte>)
    requires Entries(es)
    ensures component != [] && component[0] == 0xE5 && Packable(component) ==> !Lookup(es, Pack(component)).Found?
    ensures Lookup(es, Pack(component)).Found? ==>
              var e := Lookup(es, Pack(component)).entry; |e.name| == NAME_LENGTH && e.name[0] != 0x05
  {
    EscapedName(component);
    if Lookup(es, Pack(component)).Found? {
      LookupFound(es, Pack(component));
      PackedAbove(component);
    }
  }

  lemma {:induction false} PackedAbove(component: seq<Byte>)
    ensures Pack(component)[0] >= 0x20
  {
    if Packable(component) && Base(component) != [] {
      assert ValidChar(Base(component)[0]);
    }
  }

  lemma {:induction false} LookupNone(es: seq<Entry>, name: seq<Byte>)
    requires Entries(es)
    ensures Lookup(es, name) == Missed <==> forall j :: 0 <= j < |es| ==> !IsLast(es[j]) && !Matches(es[j], name)
    decreases |es|
  {
    if es != [] {
      LookupNone(es[1..], name);
      assert forall j :: 0 < j < |es| ==> es[j] == es[1..][j - 1];
      assert forall j :: 0 <= j < |es| - 1 ==> es[1..][j] == es[j + 1];
    }
  }

  lemma {:induction false} LookupJoin(a: seq<Entry>, b: seq<Entry>, name: seq<Byte>)
    requires Entries(a) && Entries(b)
    ensures Entries(a + b)
    ensures Lookup(a + b, name) == if Lookup(a, name) == Missed then Lookup(b, name) else Lookup(a, name)
    decreases |a|
  {
    if a == [] {
      assert a + b == b;
    } else {
      assert (a + b)[1..] == a[1..] + b;
      LookupJoin(a[1..], b, name);
    }
  }

  function SectorEntries(rx: Sector, i: nat): (es: seq<Entry>)
    requires i <= ENTRIES_PER_SECTOR
    ensures Entries(es) && |es| == ENTRIES_PER_SECTOR - i
    decreases ENTRIES_PER_SECTOR - i
  {
    if i == ENTRIES_PER_SECTOR then [] else [EntryAt(rx, i)] + SectorEntries(rx, i + 1)
  }

  lemma {:induction false} ScanIsLookup(rx: Sector, name: seq<Byte>, i: nat)
    requires i <= ENTRIES_PER_SECTOR
    ensures Scan(rx, name, i) == Lookup(SectorEntries(rx, i), name)
    decreases ENTRIES_PER_SECTOR - i
  {
    if i < ENTRIES_PER_SECTOR {
      ScanIsLookup(rx, name, i + 1);
      assert SectorEntries(rx, i)[1..] == SectorEntries(rx, i + 1);
    }
  }

  /** The entries of cluster `c`, from sector `s` on. */
  function ClusterEntries(v: Volume, c: Word, s: nat): (es: seq<Entry>)
    requires s <= v.sectorsPerCluster
    ensures Entries(es)
    decreases v.sectorsPerCluster - s
  {
    if s == v.sectorsPerCluster then []
    else SectorEntries(v.disk(v.SectorLba(c, s % MODULUS_32)), 0) + ClusterEntries(v, c, s + 1)
  }

  /** All entries of a directory, in order. */
  function DirectoryEntries(v: Volume, chain: seq<Word>): (es: seq<Entry>)
    ensures Entries(es)
    decreases |chain|
  {
    if chain == [] then [] else ClusterEntries(v, chain[0], 0) + DirectoryEntries(v, chain[1..])
  }

  /** The clusters a search for `name` goes through: to the first that decides it, or to the end of the chain. */
  predicate Decides(v: Volume, chain: seq<Word>, name: seq<Byte>)
    decreases |chain|
  {
    && chain != []
    && (if Lookup(ClusterEntries(v, chain[0], 0), name) != Missed then |chain| == 1
        else if |chain| == 1 then IsEnd(v.Link(chain[0]))
        else !IsEnd(v.Link(chain[0])) && v.Link(chain[0]) == chain[1] && Decides(v, chain[1..], name))
  }

  /** `chain` is what a search for `name` in the directory that starts at cluster `c` goes through. */
  ghost predicate Visited(v: Volume, c: Word, name: seq<Byte>, chain: seq<Word>) {
    Decides(v, chain, name) && chain[0] == c
  }

  /** `chain` is the whole cluster chain from its first cluster; it ends, so it repeats nothing. */
  predicate WholeChain(v: Volume, chain: seq<Word>)
    decreases |chain|
  {
    && chain != []
    && (if |chain| == 1 then IsEnd(v.Link(chain[0]))
        else !IsEnd(v.Link(chain[0])) && v.Link(chain[0]) == chain[1] && WholeChain(v, chain[1..]))
  }

  /** In a directory whose chain ends every search is decided, as the flat search of all its entries is. */
  lemma {:induction false} WholeDecides(v: Volume, chain: seq<Word>, name: seq<Byte>) returns (n: nat)
    requires WholeChain(v, chain)
    ensures 0 < n <= |chain| && Visited(v, chain[0], name, chain[..n])
    ensures Lookup(DirectoryEntries(v, chain[..n]), name) == Lookup(DirectoryEntries(v, chain), name)
    decreases |chain|
  {
    hide Lookup, ClusterEntries;
    n := 1;
    LookupJoin(ClusterEntries(v, chain[0], 0), DirectoryEntries(v, chain[1..]), name);
    assert chain[..1][1..] == [];
    LookupJoin(ClusterEntries(v, chain[0], 0), [], name);
    if Lookup(ClusterEntries(v, chain[0], 0), name) == Missed && |chain| > 1 {
      var m := WholeDecides(v, chain[1..], name);
      n := m + 1;
      assert chain[..n][1..] == chain[1..][..m];
      LookupJoin(ClusterEntries(v, chain[0], 0), DirectoryEntries(v, chain[..n][1..]), name);
    } else {
      LookupEmpty(name);
      if |chain| == 1 { assert chain[..1] == chain; }
    }
  }

  // ---------------------------------------------------------------- the search machine

  /** fs_open_ctx_t's state: a directory sector or a table sector has been asked for, or the search is over. */
  datatype Phase = ParseDir | ProcessFat | Opened(file: File) | NotFound | Error

  /** `directory` is the first cluster of the directory being searched, which the caller is told too. */
  datatype Opener = Opener(walker: Walker, directory: Word, cluster: Word, lba: Word, sector: nat, phase: Phase)

  predicate Live(o: Opener) {
    o.phase.ParseDir? || o.phase.ProcessFat?
  }

  /** The file an entry describes, at its start. */
  function FileOf(e: Entry): File {
    File(e.cluster, e.cluster, 0, 0, 0, e.size)
  }

  function EnterCluster(v: Volume, o: Opener, c: Word): Opener {
    o.(cluster := c, sector := 0, lba := v.clusterLba(c), phase := ParseDir)
  }

  /** fs_open_submit_with_dir_parent; `home` is the caller's own directory, absent for the kernel. */
  function OpenSubmit(v: Volume, path: seq<Byte>, home: Option<Word>): Opener {
    var dir := if home.None? || (path != [] && path[0] == SLASH) then v.root else home.value;
    EnterCluster(v, Opener(Begin(path), dir, dir, 0, 0, ParseDir), dir)
  }

  function Wanted(v: Volume, o: Opener): Option<Word> {
    match o.phase
    case ParseDir => Some(o.lba)
    case ProcessFat => Some(v.fatLba(o.cluster))
    case _ => None
  }

  /** fs_open_step. */
  function OpenStep(v: Volume, o: Opener, status: int, rx: Sector): Opener
    requires Live(o)
  {
    if status != 0 then o.(phase := Error)
    else match o.phase
      case ParseDir => (
        match Scan(rx, o.walker.name, 0)
        case Ended => o.(phase := NotFound)
        case Found(e) =>
          if o.walker.rest.None? then o.(phase := Opened(FileOf(e)))
          else EnterCluster(v, o.(walker := Advance(o.walker), directory := e.cluster), e.cluster)
        case Missed =>
          var next := o.(sector := o.sector + 1, lba := Wrap(o.lba + 1));
          if next.sector >= v.sectorsPerCluster then next.(phase := ProcessFat, lba := v.fatLba(o.cluster)) else next)
      case _ =>
        var next := v.entry(rx, o.cluster);
        if IsEnd(next) then o.(phase := NotFound) else EnterCluster(v, o, next)
  }

  /** `k` steps on the card's contents; a search that is over stays as it is. */
  function Steps(v: Volume, o: Opener, k: nat): Opener
    decreases k
  {
    if k == 0 || !Live(o) then o else Steps(v, OpenStep(v, o, 0, v.disk(Wanted(v, o).value)), k - 1)
  }

  lemma {:induction false} StepsJoin(v: Volume, o: Opener, a: nat, b: nat)
    ensures Steps(v, o, a + b) == Steps(v, Steps(v, o, a), b)
    decreases a
  {
    hide OpenStep;
    if a > 0 && Live(o) {
      StepsJoin(v, OpenStep(v, o, 0, v.disk(Wanted(v, o).value)), a - 1, b);
    }
  }

  /** At the start of a directory. */
  predicate Entering(v: Volume, o: Opener) {
    o.phase.ParseDir? && o.sector == 0 && o.lba == v.clusterLba(o.cluster)
  }

  /** After the entry `e` matched: the file, or the start of the next directory. */
  predicate Entered(v: Volume, o: Opener, e: Entry, out: Opener) {
    if o.walker.rest.None? then
      out.phase == Opened(FileOf(e)) && out.directory == o.directory
    else
      out == EnterCluster(v, o.(walker := Advance(o.walker), directory := e.cluster), e.cluster)
  }

  /** A step on a directory sector. */
  lemma {:induction false} SectorStep(v: Volume, o: Opener, rx: Sector)
    requires o.phase.ParseDir? && o.sector < v.sectorsPerCluster
    ensures var out := OpenStep(v, o, 0, rx);
      match Scan(rx, o.walker.name, 0)
      case Ended => out.phase.NotFound?
      case Found(e) => Entered(v, o, e, out)
      case Missed =>
        if o.sector + 1 < v.sectorsPerCluster then out == o.(sector := o.sector + 1, lba := Wrap(o.lba + 1))
        else out == o.(sector := v.sectorsPerCluster, phase := ProcessFat, lba := v.fatLba(o.cluster))
  {
    hide Scan, Advance;
  }

  /** One cluster, from the present sector on, is searched as the flat search does. */
  lemma {:induction false} ClusterSearch(v: Volume, o: Opener) returns (k: nat)
    requires v.Mounted() && o.phase.ParseDir? && o.sector < v.sectorsPerCluster
             && o.lba == v.SectorLba(o.cluster, o.sector)
    ensures var out, hit := Steps(v, o, k), Lookup(ClusterEntries(v, o.cluster, o.sector), o.walker.name);
      match hit
      case Ended => out.phase.NotFound?
      case Found(e) => Entered(v, o, e, out)
      case Missed => out == o.(sector := v.sectorsPerCluster, phase := ProcessFat, lba := v.fatLba(o.cluster))
    ensures k > 0
    decreases v.sectorsPerCluster - o.sector
  {
    hide Scan, Lookup, EntryAt, Steps, SectorEntries, OpenStep, Advance;
    var rx := v.disk(o.lba);
    var next := OpenStep(v, o, 0, rx);
    SectorStep(v, o, rx);
    ScanIsLookup(rx, o.walker.name, 0);
    LookupJoin(SectorEntries(rx, 0), ClusterEntries(v, o.cluster, o.sector + 1), o.walker.name);
    OneStep(v, o);
    k := 1;
    if Scan(rx, o.walker.name, 0) == Missed {
      if o.sector + 1 < v.sectorsPerCluster {
        NextLba(v, o.cluster, o.sector);
        var j := ClusterSearch(v, next);
        StepsJoin(v, o, 1, j);
        k := 1 + j;
      } else {
        LookupEmpty(o.walker.name);
      }
    }
  }

  lemma {:induction false} OneStep(v: Volume, o: Opener)
    requires Live(o)
    ensures Steps(v, o, 1) == OpenStep(v, o, 0, v.disk(Wanted(v, o).value))
  {
    var next := OpenStep(v, o, 0, v.disk(Wanted(v, o).value));
    assert Steps(v, next, 0) == next;
  }

  lemma {:induction false} LookupEmpty(name: seq<Byte>)
    ensures Lookup([], name) == Missed
  {
  }

  lemma {:induction false} NextLba(v: Volume, c: Word, sector: nat)
    requires sector < 255
    ensures Wrap(v.SectorLba(c, sector) + 1) == v.SectorLba(c, sector + 1)
  {
  }

  /** A directory is searched as the flat search of the clusters gone through does. */
  lemma {:induction false} DirectorySearch(v: Volume, o: Opener, chain: seq<Word>) returns (k: nat)
    requires v.Mounted() && Entering(v, o) && Visited(v, o.cluster, o.walker.name, chain)
    ensures var out, hit := Steps(v, o, k), Lookup(DirectoryEntries(v, chain), o.walker.name);
      if hit.Found? then Entered(v, o, hit.entry, out) else out.phase.NotFound?
    ensures k > 0
    decreases |chain|
  {
    hide Lookup, ClusterEntries, Steps, OpenStep, Advance;
    FirstSector(v, o.cluster);
    k := ClusterSearch(v, o);
    LookupJoin(ClusterEntries(v, o.cluster, 0), DirectoryEntries(v, chain[1..]), o.walker.name);
    if Lookup(ClusterEntries(v, o.cluster, 0), o.walker.name) == Missed {
      var fat := Steps(v, o, k);
      FatStep(v, fat);
      StepsJoin(v, o, k, 1);
      k := k + 1;
      if |chain| > 1 {
        var next := EnterCluster(v, fat, chain[1]);
        var j := DirectorySearch(v, next, chain[1..]);
        StepsJoin(v, o, k, j);
        k := k + j;
      } else {
        LookupEmpty(o.walker.name);
      }
    }
  }

  /** A search that comes to an end has gone through clusters that decide it. */
  lemma {:induction false} DirectoryEnds(v: Volume, o: Opener, k: nat) returns (chain: seq<Word>)
    requires v.Mounted() && Entering(v, o) && !Live(Steps(v, o, k))
    ensures Visited(v, o.cluster, o.walker.name, chain)
    decreases k
  {
    hide Lookup, ClusterEntries, Steps, OpenStep, Advance;
    FirstSector(v, o.cluster);
    var j := ClusterSearch(v, o);
    chain := [o.cluster];
    if Lookup(ClusterEntries(v, o.cluster, 0), o.walker.name) == Missed {
      var fat := Steps(v, o, j);
      FatStep(v, fat);
      StepsJoin(v, o, j, 1);
      if !IsEnd(v.Link(o.cluster)) {
        LiveSplit(v, o, j + 1, k);
        var rest := DirectoryEnds(v, Steps(v, o, j + 1), k - (j + 1));
        chain := [o.cluster] + rest;
        assert chain[1..] == rest;
      }
    }
  }

  /** A search that is over only after `k` steps. */
  lemma {:induction false} LiveSplit(v: Volume, o: Opener, j: nat, k: nat)
    requires Live(Steps(v, o, j)) && !Live(Steps(v, o, k))
    ensures j < k && !Live(Steps(v, Steps(v, o, j), k - j))
  {
    hide OpenStep, Steps;
    if k <= j {
      StepsJoin(v, o, k, j - k);
      OverStays(v, Steps(v, o, k), j - k);
    } else {
      StepsJoin(v, o, j, k - j);
    }
  }

  lemma {:induction false} OverStays(v: Volume, o: Opener, k: nat)
    requires !Live(o)
    ensures Steps(v, o, k) == o
  {
  }

  lemma {:induction false} FatStep(v: Volume, o: Opener)
    requires o.phase.ProcessFat?
    ensures Steps(v, o, 1) == var next := v.Link(o.cluster);
              if IsEnd(next) then o.(phase := NotFound) else EnterCluster(v, o, next)
  {
    OneStep(v, o);
  }

  lemma {:induction false} FirstSector(v: Volume, c: Word)
    ensures v.SectorLba(c, 0) == v.clusterLba(c)
  {
  }

  // ---------------------------------------------------------------- paths

  lemma {:induction false} VisitedUnique(v: Volume, a: seq<Word>, b: seq<Word>, name: seq<Byte>)
    requires Decides(v, a, name) && Decides(v, b, name) && a[0] == b[0]
    ensures a == b
    decreases |a|
  {
    hide Lookup, ClusterEntries;
    if |a| > 1 {
      VisitedUnique(v, a[1..], b[1..], name);
      assert a == [a[0]] + a[1..] && b == [b[0]] + b[1..];
    }
  }

  datatype Verdict = Names(entry: Entry, directory: Word) | Absent | Endless

  /** The flat meaning of a search for packed names, each in the directory the one before named: the entry, and the
      directory it is in.  Endless when a directory's chain leads on for ever without deciding. */
  ghost function Resolve(v: Volume, directory: Word, names: seq<seq<Byte>>): Verdict
    requires names != []
    decreases |names|
  {
    if chain: seq<Word> :| Visited(v, directory, names[0], chain) then
      match Lookup(DirectoryEntries(v, chain), names[0])
      case Found(e) => if |names| == 1 then Names(e, directory) else Resolve(v, e.cluster, names[1..])
      case _ => Absent
    else Endless
  }

  lemma {:induction false} ResolveHere(v: Volume, directory: Word, names: seq<seq<Byte>>, chain: seq<Word>)
    requires names != [] && Visited(v, directory, names[0], chain)
    ensures Resolve(v, directory, names) ==
      match Lookup(DirectoryEntries(v, chain), names[0])
      case Found(e) => if |names| == 1 then Names(e, directory) else Resolve(v, e.cluster, names[1..])
      case _ => Absent
  {
    hide Lookup, DirectoryEntries, Decides;
    forall c | Visited(v, directory, names[0], c) ensures c == chain {
      VisitedUnique(v, c, chain, names[0]);
    }
  }

  /** The names a walker leads the search to, one after the other. */
  function Searched(w: Walker): (names: seq<seq<Byte>>)
    ensures names != [] && names[0] == w.name
    decreases if w.rest.Some? then |w.rest.value| + 1 else 0
  {
    [w.name] + if w.rest.None? then [] else Searched(Advance(w))
  }

  lemma {:induction false} SearchedNext(w: Walker)
    ensures |Searched(w)| == 1 <==> w.rest.None?
    ensures w.rest.Some? ==> Searched(w)[1..] == Searched(Advance(w))
  {
    hide Advance;
    if w.rest.Some? { assert Searched(w) == [w.name] + Searched(Advance(w)); }
  }

  /** Whatever path is opened: a search that is not endless comes to an end, and finds what the flat search finds, in
      the directory it reports. */
  lemma {:induction false} OpenExact(v: Volume, o: Opener) returns (k: nat)
    requires v.Mounted() && Entering(v, o) && o.cluster == o.directory
    requires Resolve(v, o.directory, Searched(o.walker)) != Endless
    ensures var out := Steps(v, o, k);
      match Resolve(v, o.directory, Searched(o.walker))
      case Names(e, directory) => out.phase == Opened(FileOf(e)) && out.directory == directory
      case _ => out.phase == NotFound
    decreases if o.walker.rest.Some? then |o.walker.rest.value| + 1 else 0
  {
    hide Lookup, DirectoryEntries, Steps, Advance, Decides, Searched;
    var names := Searched(o.walker);
    SearchedNext(o.walker);
    var chain: seq<Word> :| Visited(v, o.directory, names[0], chain);
    ResolveHere(v, o.directory, names, chain);
    k := DirectorySearch(v, o, chain);
    var hit := Lookup(DirectoryEntries(v, chain), o.walker.name);
    if hit.Found? && o.walker.rest.Some? {
      var j := OpenExact(v, Steps(v, o, k));
      StepsJoin(v, o, k, j);
      k := k + j;
    }
  }

  /** And only such a search comes to an end. */
  lemma {:induction false} OpenEnds(v: Volume, o: Opener, k: nat)
    requires v.Mounted() && Entering(v, o) && o.cluster == o.directory && !Live(Steps(v, o, k))
    ensures Resolve(v, o.directory, Searched(o.walker)) != Endless
    decreases k
  {
    hide Lookup, DirectoryEntries, Steps, Advance, Decides, Searched;
    var names := Searched(o.walker);
    SearchedNext(o.walker);
    var chain := DirectoryEnds(v, o, k);
    ResolveHere(v, o.directory, names, chain);
    var j := DirectorySearch(v, o, chain);
    if Lookup(DirectoryEntries(v, chain), o.walker.name).Found? && o.walker.rest.Some? {
      LiveSplit(v, o, j, k);
      OpenEnds(v, Steps(v, o, j), k - j);
    }
  }

  /** A path of one component: the first live entry of that name before the end marker, in the directory's order, or
      not found when there is none.  The file it opens is synchronised at its start. */
  lemma {:induction false} OpenSingle(v: Volume, path: seq<Byte>, component: seq<Byte>, home: Option<Word>,
                     chain: seq<Word>)
      returns (k: nat)
    requires v.Mounted() && component != [] && SLASH !in component && (path == component || path == [SLASH] + component)
    requires Visited(v, if home.None? || path[0] == SLASH then v.root else home.value, Pack(component), chain)
    ensures var out, hit := Steps(v, OpenSubmit(v, path, home), k), Lookup(DirectoryEntries(v, chain), Pack(component));
      && (hit.Found? ==>
            out.phase == Opened(FileOf(hit.entry)) && Synced(v, out.phase.file) && out.directory == chain[0])
      && (!hit.Found? ==> out.phase == NotFound)
  {
    hide Lookup, DirectoryEntries, Steps, Decides;
    SingleComponent(component);
    var o := OpenSubmit(v, path, home);
    SearchedNext(o.walker);
    ResolveHere(v, o.directory, Searched(o.walker), chain);
    k := OpenExact(v, o);
    DecomposeOnly(v, 0, Position(0, 0, 0));
  }

  /** Two numbers of steps after which a search is over leave it in the same state. */
  lemma {:induction false} SameEnd(v: Volume, o: Opener, a: nat, b: nat)
    requires !Live(Steps(v, o, a)) && !Live(Steps(v, o, b))
    ensures Steps(v, o, a) == Steps(v, o, b)
    decreases a
  {
    hide OpenStep;
    if a > 0 && b > 0 && Live(o) {
      SameEnd(v, OpenStep(v, o, 0, v.disk(Wanted(v, o).value)), a - 1, b - 1);
    }
  }

  // ---------------------------------------------------------------- the search, on the directory's bytes

  /** The 32 bytes of slot `j` in sector `s` of cluster `c`. */
  function Slot(v: Volume, c: Word, s: nat, j: nat): (bytes: seq<Byte>)
    requires j < 16
    ensures |bytes| == 32
  {
    v.disk((v.clusterLba(c) + s) % 0x1_0000_0000)[32 * j..32 * j + 32]
  }

  /** A record with this name that is neither deleted nor part of a long name. */
  predicate Opens(bytes: seq<Byte>, name: seq<Byte>)
    requires |bytes| == 32
  {
    bytes[0] != 0 && bytes[0] != 0xE5 && (bytes[11] as bv8) & 0x0F != 0x0F && bytes[..11] == name
  }

  /** A record the search goes on behind: not the end of the directory, nor one that opens. */
  predicate Passes(v: Volume, c: Word, s: nat, j: nat, name: seq<Byte>)
    requires j < 16
  {
    Slot(v, c, s, j)[0] != 0 && !Opens(Slot(v, c, s, j), name)
  }

  /** The order of slots: by cluster, sector and slot. */
  predicate Before(k: nat, s: nat, j: nat, k': nat, s': nat, j': nat) {
    k < k' || (k == k' && (s < s' || (s == s' && j < j')))
  }

  /** Every slot of the directory before this one passes. */
  ghost predicate AllPass(v: Volume, directory: Word, k: nat, s: nat, j: nat, name: seq<Byte>) {
    forall k': nat, c': Word, s': nat, j': nat ::
      ClusterAt(v, directory, k') == Some(c') && s' < v.sectorsPerCluster && j' < 16 && Before(k', s', j', k, s, j) ==>
        Passes(v, c', s', j', name)
  }

  /** The same within one cluster, from sector `from` on. */
  ghost predicate SectorsPass(v: Volume, c: Word, from: nat, s: nat, j: nat, name: seq<Byte>) {
    forall s': nat, j': nat :: (from <= s' < v.sectorsPerCluster && j' < 16 && Before(0, s', j', 0, s, j)) ==>
      Passes(v, c, s', j', name)
  }

  lemma {:induction false} LongNameBits(attr: Byte)
    ensures attr % 16 == 15 <==> (attr as bv8) & 0x0F == 0x0F
  {
  }

  /** The record in a slot, as the search reads it. */
  lemma {:induction false} SlotRead(v: Volume, c: Word, s: nat, j: nat, name: seq<Byte>)
    requires j < 16 && s < 256
    ensures var e := EntryAt(v.disk(v.SectorLba(c, s)), j);
      && (Matches(e, name) <==> Opens(Slot(v, c, s, j), name)) && (IsLast(e) <==> Slot(v, c, s, j)[0] == 0)
  {
    var rx := v.disk(v.SectorLba(c, s));
    var bytes := Slot(v, c, s, j);
    assert bytes == rx[ENTRY_SIZE * j..ENTRY_SIZE * j + 32];
    assert bytes[..11] == rx[ENTRY_SIZE * j..ENTRY_SIZE * j + NAME_LENGTH];
    assert bytes[11] == rx[ENTRY_SIZE * j + 11] && bytes[0] == rx[ENTRY_SIZE * j];
    LongNameBits(bytes[11]);
  }

  /** Where the search of one sector, from slot `i` on, stops: the first slot that does not pass. */
  lemma {:induction false} SectorFound(v: Volume, c: Word, s: nat, name: seq<Byte>, i: nat) returns (j: nat)
    requires i <= 16 && s < 256
    ensures var rx, hit := v.disk(v.SectorLba(c, s)), Lookup(SectorEntries(v.disk(v.SectorLba(c, s)), i), name);
      && i <= j <= 16 && (forall j': nat :: i <= j' < j ==> Passes(v, c, s, j', name))
      && (hit == Missed <==> j == 16) && (hit == Ended <==> j < 16 && Slot(v, c, s, j)[0] == 0)
      && (hit.Found? ==> j < 16 && Opens(Slot(v, c, s, j), name) && hit.entry == EntryAt(rx, j))
    decreases 16 - i
  {
    hide Opens, Slot, EntryAt;
    var rx := v.disk(v.SectorLba(c, s));
    j := i;
    if i < 16 {
      SlotRead(v, c, s, i, name);
      assert SectorEntries(rx, i)[0] == EntryAt(rx, i);
      if !IsLast(EntryAt(rx, i)) && !Matches(EntryAt(rx, i), name) {
        assert SectorEntries(rx, i)[1..] == SectorEntries(rx, i + 1);
        j := SectorFound(v, c, s, name, i + 1);
      }
    }
  }

  /** The same for a cluster, from sector `from` on. */
  lemma {:induction false} ClusterFound(v: Volume, c: Word, from: nat, name: seq<Byte>) returns (s: nat, j: nat)
    requires from <= v.sectorsPerCluster < 256
    ensures var hit := Lookup(ClusterEntries(v, c, from), name);
      && from <= s <= v.sectorsPerCluster && j < 16 && SectorsPass(v, c, from, s, j, name)
      && (hit == Missed <==> s == v.sectorsPerCluster)
      && (hit == Ended ==> Slot(v, c, s, j)[0] == 0)
      && (hit.Found? ==> Opens(Slot(v, c, s, j), name) && hit.entry == EntryAt(v.disk(v.SectorLba(c, s)), j))
    decreases v.sectorsPerCluster - from
  {
    hide Opens, Slot, EntryAt, Lookup, SectorEntries, Passes;
    s, j := from, 0;
    LookupEmpty(name);
    if from < v.sectorsPerCluster {
      var here := SectorEntries(v.disk(v.SectorLba(c, from)), 0);
      j := SectorFound(v, c, from, name, 0);
      LookupJoin(here, ClusterEntries(v, c, from + 1), name);
      if Lookup(here, name) == Missed { s, j := ClusterFound(v, c, from + 1, name); }
    }
  }

  /** And for the clusters a search goes through. */
  lemma {:induction false} DirectoryFound(v: Volume, chain: seq<Word>, name: seq<Byte>)
      returns (k: nat, c: Word, s: nat, j: nat)
    requires v.Mounted() && Decides(v, chain, name)
    ensures var hit := Lookup(DirectoryEntries(v, chain), name);
      && j < 16 && AllPass(v, chain[0], k, s, j, name)
      && (hit != Missed ==> ClusterAt(v, chain[0], k) == Some(c) && s < v.sectorsPerCluster)
      && (hit == Missed ==> ClusterAt(v, chain[0], k) == None)
      && (hit == Ended ==> Slot(v, c, s, j)[0] == 0)
      && (hit.Found? ==> Opens(Slot(v, c, s, j), name) && hit.entry == EntryAt(v.disk(v.SectorLba(c, s)), j))
    decreases |chain|
  {
    hide Opens, Slot, EntryAt, Lookup, ClusterEntries, Passes;
    k, c := 0, chain[0];
    s, j := ClusterFound(v, c, 0, name);
    LookupJoin(ClusterEntries(v, c, 0), DirectoryEntries(v, chain[1..]), name);
    assert ClusterAt(v, c, 0) == Some(c);
    var first, last := c, s;
    if Lookup(ClusterEntries(v, c, 0), name) == Missed {
      LookupEmpty(name);
      if |chain| > 1 {
        k, c, s, j := DirectoryFound(v, chain[1..], name);
        TailPasses(v, first, k, s, j, name, last);
        ChainTail(v, first, k);
        k := k + 1;
      } else {
        ChainTail(v, first, 0);
        k, s, j := 1, 0, 0;
        EndPasses(v, first, name, last);
      }
    } else {
      FirstPasses(v, first, s, j, name);
    }
  }

  lemma {:induction false} FirstPasses(v: Volume, first: Word, s: nat, j: nat, name: seq<Byte>)
    requires SectorsPass(v, first, 0, s, j, name) && s < v.sectorsPerCluster
    ensures AllPass(v, first, 0, s, j, name)
  {
    hide Passes;
    forall k': nat, c': Word, s': nat, j': nat |
      ClusterAt(v, first, k') == Some(c') && s' < v.sectorsPerCluster && j' < 16 && Before(k', s', j', 0, s, j)
      ensures Passes(v, c', s', j', name)
    {
      assert Before(0, s', j', 0, s, j);
    }
  }

  /** A first cluster that passes as a whole, and nothing behind it. */
  lemma {:induction false} EndPasses(v: Volume, first: Word, name: seq<Byte>, last: nat)
    requires last == v.sectorsPerCluster && SectorsPass(v, first, 0, last, 0, name)
    ensures AllPass(v, first, 1, 0, 0, name)
  {
    hide Passes;
    forall k': nat, c': Word, s': nat, j': nat |
      ClusterAt(v, first, k') == Some(c') && s' < v.sectorsPerCluster && j' < 16 && Before(k', s', j', 1, 0, 0)
      ensures Passes(v, c', s', j', name)
    {
      assert Before(0, s', j', 0, last, 0);
    }
  }

  /** In front of what passes behind it. */
  lemma {:induction false} TailPasses(v: Volume, first: Word, k: nat, s: nat, j: nat, name: seq<Byte>, last: nat)
    requires last == v.sectorsPerCluster && SectorsPass(v, first, 0, last, 0, name)
    requires !IsEnd(v.Link(first)) && AllPass(v, v.Link(first), k, s, j, name)
    ensures AllPass(v, first, k + 1, s, j, name)
  {
    hide Passes;
    forall k': nat, c': Word, s': nat, j': nat |
      ClusterAt(v, first, k') == Some(c') && s' < v.sectorsPerCluster && j' < 16 && Before(k', s', j', k + 1, s, j)
      ensures Passes(v, c', s', j', name)
    {
      if k' == 0 {
        assert Before(0, s', j', 0, last, 0);
      } else {
        ChainTail(v, first, k' - 1);
        assert Before(k' - 1, s', j', k, s, j);
      }
    }
  }

  lemma {:induction false} WithinPasses(v: Volume, c: Word, s: nat, j: nat, s': nat, j': nat, name: seq<Byte>)
    requires SectorsPass(v, c, 0, s', j', name) && s < v.sectorsPerCluster && j < 16 && Before(0, s, j, 0, s', j')
    ensures Passes(v, c, s, j, name)
  {
    hide Passes;
  }

  /** A slot that does not pass decides the search. */
  lemma {:induction false} SlotDecides(v: Volume, first: Word, k: nat, c: Word, s: nat, j: nat, name: seq<Byte>)
      returns (chain: seq<Word>)
    requires v.Mounted() && ClusterAt(v, first, k) == Some(c) && s < v.sectorsPerCluster && j < 16
    requires !Passes(v, c, s, j, name)
    ensures Visited(v, first, name, chain)
    decreases k
  {
    hide Passes, Lookup, ClusterEntries;
    var s', j' := ClusterFound(v, first, 0, name);
    chain := [first];
    if Lookup(ClusterEntries(v, first, 0), name) == Missed {
      if k == 0 {
        WithinPasses(v, first, s, j, s', j', name);
        assert false;
      } else {
        ChainTail(v, first, k - 1);
        var rest := SlotDecides(v, v.Link(first), k - 1, c, s, j, name);
        chain := [first] + rest;
        assert chain[1..] == rest;
      }
    }
  }

  /** Two places before which everything passes, and which do not pass themselves, are the same. */
  lemma {:induction false} FirstOnly(v: Volume, first: Word, k: nat, c: Word, s: nat, j: nat, k': nat, c': Word,
                     s': nat, j': nat, name: seq<Byte>)
    requires j < 16 && s < v.sectorsPerCluster && ClusterAt(v, first, k) == Some(c) && !Passes(v, c, s, j, name)
    requires j' < 16 && AllPass(v, first, k, s, j, name) && AllPass(v, first, k', s', j', name)
    requires s' < v.sectorsPerCluster && ClusterAt(v, first, k') == Some(c') ==> !Passes(v, c', s', j', name)
    requires ClusterAt(v, first, k').Some? ==> ClusterAt(v, first, k') == Some(c') && s' < v.sectorsPerCluster
    ensures k == k' && c == c' && s == s' && j == j'
  {
    hide Passes;
    if ClusterAt(v, first, k').None? && k' <= k { ChainShorter(v, first, k', k); }
    assert !Before(k, s, j, k', s', j');
    assert ClusterAt(v, first, k').Some? ==> !Before(k', s', j', k, s, j);
  }

  /** A search under one name opens the first slot that opens, if everything before it passes. */
  lemma {:induction false} OpensSlot(v: Volume, o: Opener, k: nat, c: Word, s: nat, j: nat) returns (n: nat)
    requires v.Mounted() && Entering(v, o) && o.walker.rest.None?
    requires ClusterAt(v, o.cluster, k) == Some(c) && s < v.sectorsPerCluster && j < 16
    requires Opens(Slot(v, c, s, j), o.walker.name) && AllPass(v, o.cluster, k, s, j, o.walker.name)
    ensures Steps(v, o, n).phase == Opened(FileOf(EntryAt(v.disk(v.SectorLba(c, s)), j)))
  {
    hide Lookup, DirectoryEntries, Decides, Slot, Steps, EntryAt;
    var name := o.walker.name;
    var chain := SlotDecides(v, o.cluster, k, c, s, j, name);
    var k', c', s', j' := DirectoryFound(v, chain, name);
    FirstOnly(v, o.cluster, k, c, s, j, k', c', s', j', name);
    n := DirectorySearch(v, o, chain);
  }

  /** And what it opens is the first slot that opens. */
  lemma {:induction false} OpenedSlot(v: Volume, o: Opener, n: nat) returns (k: nat, c: Word, s: nat, j: nat)
    requires v.Mounted() && Entering(v, o) && o.walker.rest.None? && Steps(v, o, n).phase.Opened?
    ensures ClusterAt(v, o.cluster, k) == Some(c) && s < v.sectorsPerCluster && j < 16
    ensures Opens(Slot(v, c, s, j), o.walker.name) && AllPass(v, o.cluster, k, s, j, o.walker.name)
    ensures Steps(v, o, n).phase == Opened(FileOf(EntryAt(v.disk(v.SectorLba(c, s)), j)))
  {
    hide Lookup, DirectoryEntries, Decides, Slot, Steps, EntryAt, Opens;
    var chain := DirectoryEnds(v, o, n);
    var m := DirectorySearch(v, o, chain);
    SameEnd(v, o, n, m);
    k, c, s, j := DirectoryFound(v, chain, o.walker.name);
  }

  /** Where the search for a path begins: the root for an absolute path and for the kernel. */
  function StartOf(v: Volume, path: seq<Byte>, home: Option<Word>): Word {
    if home.None? || (path != [] && path[0] == 0x2F) then v.root else home.value
  }

  /** A path of one component opens the record that holds its packed name, with that record's cluster and size, whatever
      else the record says: unless the record ends the directory, is deleted or is part of a long name, or something
      before it ends the directory or is such a record itself. */
  lemma {:induction false} OpensEntry(v: Volume, path: seq<Byte>, component: seq<Byte>, home: Option<Word>, k: nat,
                     c: Word, s: nat, j: nat, attr: Byte, rest: seq<Byte>, high: Word, write: seq<Byte>, low: Word,
                     size: Word)
      returns (n: nat)
    requires v.Mounted() && component != [] && 0x2F !in component && (path == component || path == [0x2F] + component)
    requires ClusterAt(v, StartOf(v, path, home), k) == Some(c) && s < v.sectorsPerCluster && j < 16
    requires |rest| == 8 && |write| == 4 && high < 0x1_0000 && low < 0x1_0000
    requires Slot(v, c, s, j) == Layout(Pack(component), attr, rest, high, write, low, size)
    requires Pack(component)[0] != 0 && Pack(component)[0] != 0xE5 && (attr as bv8) & 0x0F != 0x0F
    requires AllPass(v, StartOf(v, path, home), k, s, j, Pack(component))
    ensures var first := 0x1_0000 * high + low;
      Steps(v, OpenSubmit(v, path, home), n).phase == Opened(File(first, first, 0, 0, 0, size))
  {
    hide AllPass, Steps, Pack, Layout, EntryAt, Slot;
    SingleComponent(component);
    var o, rx := OpenSubmit(v, path, home), v.disk(v.SectorLba(c, s));
    SlotIs(v, c, s, j);
    LayoutRead(rx, j, Pack(component), attr, rest, high, write, low, size);
    LayoutFields(Pack(component), attr, rest, high, write, low, size);
    n := OpensSlot(v, o, k, c, s, j);
  }

  lemma {:induction false} SlotIs(v: Volume, c: Word, s: nat, j: nat)
    requires j < 16 && s < 256
    ensures Slot(v, c, s, j) == v.disk(v.SectorLba(c, s))[ENTRY_SIZE * j..ENTRY_SIZE * (j + 1)]
  {
  }

  /** Such a path opens nothing else: the record is neither deleted nor part of a long name, has the packed name, and is
      the first of these; the file has the cluster and size it gives, byte for byte. */
  lemma {:induction false} OpensOnly(v: Volume, path: seq<Byte>, component: seq<Byte>, home: Option<Word>, n: nat)
      returns (k: nat, c: Word, s: nat, j: nat)
    requires v.Mounted() && component != [] && 0x2F !in component && (path == component || path == [0x2F] + component)
    requires Steps(v, OpenSubmit(v, path, home), n).phase.Opened?
    ensures ClusterAt(v, StartOf(v, path, home), k) == Some(c) && s < v.sectorsPerCluster && j < 16
    ensures AllPass(v, StartOf(v, path, home), k, s, j, Pack(component))
    ensures var b, f := Slot(v, c, s, j), Steps(v, OpenSubmit(v, path, home), n).phase.file;
      && b[0] != 0 && b[0] != 0xE5 && (b[11] as bv8) & 0x0F != 0x0F && b[..11] == Pack(component)
      && f.first == f.current == 0x1_0000 * Little(b[20..22]) + Little(b[26..28]) && f.size == Little(b[28..32])
      && f.sector == f.byte == f.offset == 0
  {
    hide AllPass, Steps, Pack, Slot, Opens, EntryAt, Little;
    SingleComponent(component);
    k, c, s, j := OpenedSlot(v, OpenSubmit(v, path, home), n);
    SlotIs(v, c, s, j);
    FieldsRead(v, c, s, j);
    OpensIs(Slot(v, c, s, j), Pack(component));
  }

  lemma {:induction false} OpensIs(b: seq<Byte>, name: seq<Byte>)
    requires |b| == 32 && Opens(b, name)
    ensures b[0] != 0 && b[0] != 0xE5 && (b[11] as bv8) & 0x0F != 0x0F && b[..11] == name
  {
  }

  /** The number these bytes stand for, the lowest first. */
  function Little(b: seq<Byte>): nat {
    if b == [] then 0 else (b[0] as int) + 0x100 * Little(b[1..])
  }

  lemma {:induction false} FieldsRead(v: Volume, c: Word, s: nat, j: nat)
    requires j < 16 && s < 256
    ensures var e, b := EntryAt(v.disk(v.SectorLba(c, s)), j), Slot(v, c, s, j);
      e.cluster == 0x1_0000 * Little(b[20..22]) + Little(b[26..28]) && e.size == Little(b[28..32])
  {
    hide Slot;
    SlotIs(v, c, s, j);
    var b := Slot(v, c, s, j);
    TwoBytes(b, 20);
    TwoBytes(b, 26);
    TwoBytes(b, 28);
    TwoBytes(b, 30);
    assert b[28..32][1..] == b[29..32] && b[29..32][1..] == b[30..32];
  }

  lemma {:induction false} TwoBytes(b: seq<Byte>, at: nat)
    requires at + 2 <= |b|
    ensures Little(b[at..at + 2]) == (b[at] as int) + 0x100 * (b[at + 1] as int)
  {
    assert b[at..at + 2] == [b[at], b[at + 1]];
    assert Little([b[at + 1]]) == b[at + 1] as int;
  }

  /** A string's characters as bytes. */
  function Bytes(s: string): (b: seq<Byte>)
    requires forall i :: 0 <= i < |s| ==> s[i] < 256 as char
    ensures |b| == |s|
  {
    seq(|s|, i requires 0 <= i < |s| => s[i] as int)
  }

  /** "readme.txt" is looked for as "README  TXT", and a longer name under its first characters. */
  lemma {:induction false} ReadmePacks()
    ensures Pack(Bytes("readme.txt")) == Bytes("README  TXT")
    ensures Pack(Bytes("long_file_name.text")) == Bytes("LONG_FILTEX")
  {
    hide *;
    ReadmePieces();
    LongPieces();
    PackSplit(Bytes("readme"), Bytes("txt"), Bytes("readme.txt"));
    PackSplit(Bytes("long_file_name"), Bytes("text"), Bytes("long_file_name.text"));
    ReadmeFields();
    LongFields();
  }

  lemma {:induction false} ReadmePieces()
    ensures Bytes("readme") != [] && Bytes("readme.txt") == Bytes("readme") + [DOT] + Bytes("txt")
    ensures DOT !in Bytes("readme")[1..] && AllValid(Bytes("readme")) && AllValid(Bytes("txt"))
  {
  }

  lemma {:induction false} LongPieces()
    ensures Bytes("long_file_name") != []
    ensures Bytes("long_file_name.text") == Bytes("long_file_name") + [DOT] + Bytes("text")
    ensures DOT !in Bytes("long_file_name")[1..] && AllValid(Bytes("long_file_name")) && AllValid(Bytes("text"))
  {
  }

  lemma {:induction false} ReadmeFields()
    ensures Field(Bytes("readme"), 8) + Field(Bytes("txt"), 3) == Bytes("README  TXT")
  {
    assert Field(Bytes("readme"), 8) == Bytes("README  ");
    assert Field(Bytes("txt"), 3) == Bytes("TXT");
  }

  lemma {:induction false} LongFields()
    ensures Field(Bytes("long_file_name"), 8) + Field(Bytes("text"), 3) == Bytes("LONG_FILTEX")
  {
    assert Field(Bytes("long_file_name"), 8) == Bytes("LONG_FIL");
    assert Field(Bytes("text"), 3) == Bytes("TEX");
  }

  lemma {:induction false} PackSplit(base: seq<Byte>, ext: seq<Byte>, whole: seq<Byte>)
    requires base != [] && whole == base + [DOT] + ext && DOT !in base[1..] && AllValid(base) && AllValid(ext)
    ensures Pack(whole) == Field(base, 8) + Field(ext, 3)
  {
    PackBaseAndExtension(base, ext);
  }

  /** The characters a name may have. */
  lemma {:induction false} ValidExactly(c: Byte)
    ensures ValidChar(c) <==> c >= 0x20 && (c as char) !in "\"*+,/:;<=>?[\\]|"
  {
    assert "\"*+,/:;<=>?[\\]|" == ['\"', '*', '+', ',', '/', ':', ';', '<', '=', '>', '?', '[', '\\', ']', '|'];
  }

  const SMALL := "abcdefghijklmnopqrstuvwxyz"
  const CAPITAL := "ABCDEFGHIJKLMNOPQRSTUVWXYZ"

  /** Small letters become capital ones, and nothing else changes. */
  lemma {:induction false} UpperExactly(c: Byte)
    ensures |SMALL| == |CAPITAL| == 26
    ensures forall i :: 0 <= i < |SMALL| ==> ToUpper(SMALL[i] as int) == CAPITAL[i] as int
    ensures c !in Bytes(SMALL) ==> ToUpper(c) == c
  {
    if 0x61 <= c <= 0x7A {
      assert Bytes(SMALL)[c - 0x61] == SMALL[c - 0x61] as int == c;
    }
  }

  /** So "/readme.txt" opens the record "README  TXT" in the root's first slot, an ordinary file's. */
  lemma {:induction false} OpensReadme(v: Volume, rest: seq<Byte>, high: Word, write: seq<Byte>, low: Word, size: Word)
      returns (n: nat)
    requires v.Mounted() && |rest| == 8 && |write| == 4 && high < 0x1_0000 && low < 0x1_0000
    requires Slot(v, v.root, 0, 0) == Layout(Bytes("README  TXT"), 0x20, rest, high, write, low, size)
    ensures var first := 0x1_0000 * high + low;
      Steps(v, OpenSubmit(v, Bytes("/readme.txt"), None), n).phase == Opened(File(first, first, 0, 0, 0, size))
  {
    hide Steps, Pack, Layout, Slot, OpenSubmit;
    var name := Bytes("readme.txt");
    ReadmePacks();
    assert Bytes("/readme.txt") == [0x2F] + name;
    assert 0x2F !in name by {
      assert forall i :: 0 <= i < |name| ==> name[i] == "readme.txt"[i] as int;
    }
    LongNameBits(0x20);
    assert AllPass(v, v.root, 0, 0, 0, Pack(name));
    assert Bytes("README  TXT")[0] == 0x52;
    assert ClusterAt(v, v.root, 0) == Some(v.root);
    n := OpensEntry(v, Bytes("/readme.txt"), name, None, 0, v.root, 0, 0, 0x20, rest, high, write, low, size);
  }

  // ---------------------------------------------------------------- what a path means

  /** The path with these components, absolute. */
  function PathOf(cs: seq<seq<Byte>>): seq<Byte>
    decreases |cs|
  {
    if cs == [] then [] else [SLASH] + cs[0] + PathOf(cs[1..])
  }

  predicate Proper(cs: seq<seq<Byte>>) {
    forall i :: 0 <= i < |cs| ==> cs[i] != [] && SLASH !in cs[i]
  }

  function PackAll(cs: seq<seq<Byte>>): (names: seq<seq<Byte>>)
    ensures |names| == |cs| && forall i :: 0 <= i < |cs| ==> names[i] == Pack(cs[i])
  {
    seq(|cs|, i requires 0 <= i < |cs| => Pack(cs[i]))
  }

  /** The names a path of these components is searched under: the last component is replaced by the one before. */
  function Shifted(cs: seq<seq<Byte>>): (names: seq<seq<Byte>>)
    requires |cs| >= 2
    ensures names != []
  {
    PackAll(cs[..|cs| - 1]) + [Pack(cs[|cs| - 2])]
  }

  lemma {:induction false} AdvanceSearched(w: Walker, cs: seq<seq<Byte>>)
    requires Proper(cs) && cs != [] && w.rest == Some(PathOf(cs))
    ensures Searched(Advance(w)) == if |cs| == 1 then [w.name] else Shifted(cs)
    decreases |cs|
  {
    hide Advance, Searched, Pack;
    if |cs| == 1 {
      assert PathOf(cs) == [SLASH] + cs[0];
      LastComponentLost(w, cs[0]);
      SearchedNext(Advance(w));
    } else {
      var rest := PathOf(cs[1..]);
      MiddleComponent(w, cs[0], rest);
      var next := Advance(w);
      SearchedNext(next);
      AdvanceSearched(next, cs[1..]);
      assert Searched(next) == [Pack(cs[0])] + Searched(Advance(next));
      if |cs| == 2 {
        assert cs[..1] == [cs[0]];
      } else {
        assert cs[1..][..|cs| - 2] == cs[1..|cs| - 1];
        assert PackAll(cs[..|cs| - 1]) == [Pack(cs[0])] + PackAll(cs[1..|cs| - 1]);
      }
    }
  }

  /** A path of two or more components, absolute or not, is searched under every component's name but the last, and
      once more under the last but one's. */
  lemma {:induction false} PathSearched(path: seq<Byte>, cs: seq<seq<Byte>>)
    requires Proper(cs) && |cs| >= 2 && (path == PathOf(cs) || path == PathOf(cs)[1..])
    ensures Searched(Begin(path)) == Shifted(cs)
  {
    hide Pack, Searched;
    var w := Walker(Some(PathOf(cs)), []);
    var rest := PathOf(cs[1..]);
    MiddleComponent(w, cs[0], rest);
    AdvanceSearched(w, cs);
    var p := cs[0] + rest;
    assert PathOf(cs)[1..] == p && p[0] != SLASH;
    SlashBehind(cs[0], rest, 0);
    assert p[..|cs[0]|] == cs[0];
  }

  lemma {:induction false} ResolveSplit(v: Volume, directory: Word, a: seq<seq<Byte>>, b: seq<seq<Byte>>)
    requires a != [] && b != []
    ensures Resolve(v, directory, a + b) ==
      match Resolve(v, directory, a)
      case Names(e, _) => Resolve(v, e.cluster, b)
      case verdict => verdict
    decreases |a|
  {
    hide Lookup, DirectoryEntries, Decides;
    if chain: seq<Word> :| Visited(v, directory, a[0], chain) {
      ResolveHere(v, directory, a, chain);
      ResolveHere(v, directory, a + b, chain);
      var hit := Lookup(DirectoryEntries(v, chain), a[0]);
      if hit.Found? {
        assert (a + b)[1..] == a[1..] + b;
        if |a| > 1 { ResolveSplit(v, hit.entry.cluster, a[1..], b); }
      }
    } else {
      assert (a + b)[0] == a[0];
    }
  }

  lemma {:induction false} ResolveOne(v: Volume, directory: Word, name: seq<Byte>)
    ensures Resolve(v, directory, [name]).Names? ==> Resolve(v, directory, [name]).entry.name == name
  {
    hide Lookup, DirectoryEntries, Decides;
    if chain: seq<Word> :| Visited(v, directory, name, chain) {
      ResolveHere(v, directory, [name], chain);
      if Lookup(DirectoryEntries(v, chain), name).Found? { LookupFound(DirectoryEntries(v, chain), name); }
    }
  }

  /** Such a path is opened as what it names exactly when its last two components pack alike, or its directory is not
      found either, or neither of the two names is in that directory. */
  lemma {:induction false} OpensWhatItNames(v: Volume, home: Word, cs: seq<seq<Byte>>)
    requires |cs| >= 2
    ensures var before, last := Pack(cs[|cs| - 2]), Pack(cs[|cs| - 1]);
      var directory := Resolve(v, home, PackAll(cs[..|cs| - 1]));
      Resolve(v, home, Shifted(cs)) == Resolve(v, home, PackAll(cs)) <==>
        || before == last || !directory.Names?
        || (var d := directory.entry.cluster;
            !Resolve(v, d, [before]).Names? && Resolve(v, d, [before]) == Resolve(v, d, [last]))
  {
    hide Resolve, Pack;
    var before, last := Pack(cs[|cs| - 2]), Pack(cs[|cs| - 1]);
    var names := PackAll(cs[..|cs| - 1]);
    assert PackAll(cs) == names + [last];
    ResolveSplit(v, home, names, [before]);
    ResolveSplit(v, home, names, [last]);
    var directory := Resolve(v, home, names);
    if directory.Names? {
      ResolveOne(v, directory.entry.cluster, before);
      ResolveOne(v, directory.entry.cluster, last);
    }
  }

  // ---------------------------------------------------------------- the context that is updated in place

  /** get_next_path_component from position `from` on; `next` is negative at the end of the path. */
  method GetNextPathComponent(path: seq<Byte>, from: nat) returns (component: seq<Byte>, next: int)
    requires from <= |path|
    ensures next <= |path|
    ensures match NextComponent(path[from..])
      case None => next < 0 && component == []
      case Some((c, rest)) => component == c && next >= 0 && path[next..] == rest
  {
    hide NextComponent;
    var at := from;
    if at < |path| && path[at] == SLASH {
      at := at + 1;
    }
    ComponentIs(path, from, at);
    if at == |path| { return [], -1; }
    component, next := [], at;
    while next < |path| && path[next] != SLASH
      invariant at <= next <= |path| && component == path[at..next]
      invariant SlashAt(path, at) == SlashAt(path, next)
    {
      component := component + [path[next]];
      next := next + 1;
    }
  }

  lemma {:induction false} ComponentIs(path: seq<Byte>, from: nat, at: nat)
    requires from <= |path| && at == (if from < |path| && path[from] == SLASH then from + 1 else from)
    ensures NextComponent(path[from..]) ==
            if at == |path| then None else Some((path[at..SlashAt(path, at)], path[SlashAt(path, at)..]))
  {
    var p := path[at..];
    assert p == if path[from..] != [] && path[from..][0] == SLASH then path[from..][1..] else path[from..];
    SlashShift(path, at, 0);
    assert p[..SlashAt(p, 0)] == path[at..SlashAt(path, at)] && p[SlashAt(p, 0)..] == path[SlashAt(path, at)..];
  }

  lemma {:induction false} SlashShift(path: seq<Byte>, at: nat, from: nat)
    requires at + from <= |path|
    ensures SlashAt(path[at..], from) + at == SlashAt(path, at + from)
    decreases |path| - from
  {
    if at + from < |path| {
      SlashShift(path, at, from + 1);
    }
  }

  class OpenContext {
    const path: seq<Byte>
    var offset: int              // of what follows the present component, or negative
    var name: array<Byte>        // component_83
    var directory: Word
    var cluster: Word
    var lba: Word
    var sector: nat
    var phase: Phase

    function Now(): Opener
      reads this, name
      requires offset <= |path|
    {
      Opener(Walker(if offset < 0 then None else Some(path[offset..]), name[..]), directory, cluster, lba, sector,
          phase)
    }

    /** path_walker_advance; the component is returned because the submission packs it once more. */
    method AdvanceWalker() returns (component: seq<Byte>)
      requires 0 <= offset <= |path|
      modifies this`offset, this`name
      ensures offset <= |path|
      ensures Now() == old(Now()).(walker := Advance(old(Now()).walker))
      ensures component == match NextComponent(old(path[offset..])) case None => [] case Some((c, _)) => c
    {
      var next;
      component, next := GetNextPathComponent(path, offset);
      if next < 0 || next == |path| {
        offset := -1;
        return;
      }
      offset := next;
      var _, packed := MakeFat83Name(component);
      name := packed;
    }

    /** fs_open_submit_with_dir_parent. */
    constructor (v: Volume, path: seq<Byte>, home: Option<Word>)
      ensures offset <= |this.path| && Now() == OpenSubmit(v, path, home)
    {
      var dir := if home.None? || (path != [] && path[0] == SLASH) then v.root else home.value;
      this.path, offset, name := path, 0, new Byte[0];
      directory, cluster, sector, lba, phase := dir, dir, 0, v.clusterLba(dir), ParseDir;
      new;
      assert name[..] == [] && path[0..] == path;
      var component := AdvanceWalker();
      var _, packed := MakeFat83Name(component);
      name := packed;
    }

    /** The search of the sector in the buffer. */
    method ScanSector(rx: Sector) returns (hit: Hit)
      requires offset <= |path|
      ensures hit == Scan(rx, Now().walker.name, 0)
    {
      hide EntryAt;
      var i := 0;
      while i < ENTRIES_PER_SECTOR
        invariant i <= ENTRIES_PER_SECTOR && Scan(rx, Now().walker.name, 0) == Scan(rx, Now().walker.name, i)
      {
        var e := EntryAt(rx, i);
        if e.name[0] == 0 { return Ended; }
        if !Skipped(e) && e.name == name[..] { return Found(e); }
        i := i + 1;
      }
      hit := Missed;
    }

    /** fs_open_step, up to the state it reaches. */
    method StepOn(v: Volume, status: int, rx: Sector)
      requires offset <= |path| && Live(Now())
      modifies this
      ensures offset <= |path| && Now() == OpenStep(v, old(Now()), status, rx)
    {
      hide Scan, Advance;
      if status != 0 {
        phase := Error;
        return;
      }
      if phase.ParseDir? {
        var hit := ScanSector(rx);
        match hit {
          case Ended => phase := NotFound;
          case Found(e) =>
            if offset < 0 {
              phase := Opened(FileOf(e));
            } else {
              var _ := AdvanceWalker();
              cluster, directory, sector := e.cluster, e.cluster, 0;
              lba := v.clusterLba(e.cluster);
            }
          case Missed =>
            sector := sector + 1;
            lba := Wrap(lba + 1);
            if sector >= v.sectorsPerCluster {
              phase, lba := ProcessFat, v.fatLba(cluster);
            }
        }
      } else {
        var next := v.entry(rx, cluster);
        if IsEnd(next) {
          phase := NotFound;
        } else {
          cluster, sector, lba, phase := next, 0, v.clusterLba(next), ParseDir;
        }
      }
    }
  }
}
