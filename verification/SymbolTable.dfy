/** The assembler's symbol table: sixteen hash chains of records that stand in for a map (tools/assembler/rva.c, the
`sym_*` functions). */
module SymbolTable {
  import opened Options
  import opened Words

  const SYM_TAB_LIST_COUNT: nat := 16
  const SYM_NAME_MAX: nat := 32

  type Name = seq<bv8>

  datatype DefnReturn = Added | Defined | Redefined | Unchanged

  // ---------------------------------------------------------------- the table as a value

  /** One symbol; its identifier is its position. */
  datatype Symbol = Symbol(name: Name, value: Word, isDefined: bool)

  function FoldChar(c: bv8): bv8 {
    if 0x61 <= c <= 0x7A then c & 0xDF else c
  }

  /** The name as the table keeps it. */
  function Fold(name: Name, foldsCase: bool): (f: Name)
    ensures |f| == |name|
  {
    if foldsCase then seq(|name|, i requires 0 <= i < |name| => FoldChar(name[i])) else name
  }

  /** Where a name is. */
  function Find(t: seq<Symbol>, n: Name): (i: Option<nat>)
    ensures i.Some? ==> i.value < |t| && t[i.value].name == n && forall j :: 0 <= j < i.value ==> t[j].name != n
    ensures i.None? ==> forall j :: 0 <= j < |t| ==> t[j].name != n
    decreases |t|
  {
    if t == [] then None
    else
      var i := Find(t[..|t| - 1], n);
      if i.Some? then i else if t[|t| - 1].name == n then Some(|t| - 1) else None
  }

  /** sym_define_label. */
  function Define(t: seq<Symbol>, n: Name, value: Word): (seq<Symbol>, DefnReturn) {
    var i := Find(t, n);
    if i.None? then (t + [Symbol(n, value, true)], Added)
    else
      (t[i.value := Symbol(n, value, true)],
       if !t[i.value].isDefined then Defined else if t[i.value].value != value then Redefined else Unchanged)
  }

  /** A label met for the first time: sym_locate_label, and sym_add_to_table if it was not there. */
  function Enter(t: seq<Symbol>, n: Name): seq<Symbol> {
    if Find(t, n).None? then t + [Symbol(n, 0, false)] else t
  }

  datatype Op = DefineOp(name: Name, value: Word) | EnterOp(name: Name)

  function Do(t: seq<Symbol>, op: Op, foldsCase: bool): seq<Symbol> {
    match op
    case DefineOp(n, v) => Define(t, Fold(n, foldsCase), v).0
    case EnterOp(n) => Enter(t, Fold(n, foldsCase))
  }

  function Run(ops: seq<Op>, foldsCase: bool): seq<Symbol>
    decreases |ops|
  {
    if ops == [] then [] else Do(Run(ops[..|ops| - 1], foldsCase), ops[|ops| - 1], foldsCase)
  }

  /** What a map with the same history holds for the name `n`: its latest value, if it was given one. */
  function Latest(ops: seq<Op>, n: Name, foldsCase: bool): Option<Symbol>
    decreases |ops|
  {
    if ops == [] then None
    else
      var before, op := Latest(ops[..|ops| - 1], n, foldsCase), ops[|ops| - 1];
      if Fold(op.name, foldsCase) != n then before
      else if op.DefineOp? then Some(Symbol(n, op.value, true))
      else if before.Some? then before
      else Some(Symbol(n, 0, false))
  }

  /** The names in the order in which they first appeared. */
  function FirstAppearances(ops: seq<Op>, foldsCase: bool): seq<Name>
    decreases |ops|
  {
    if ops == [] then []
    else
      var before, n := FirstAppearances(ops[..|ops| - 1], foldsCase), Fold(ops[|ops| - 1].name, foldsCase);
      if n in before then before else before + [n]
  }

  function Names(t: seq<Symbol>): (ns: seq<Name>)
    ensures |ns| == |t| && forall i :: 0 <= i < |t| ==> ns[i] == t[i].name
  {
    seq(|t|, i requires 0 <= i < |t| => t[i].name)
  }

  ghost predicate Distinct(t: seq<Symbol>) {
    forall i, j :: 0 <= i < j < |t| ==> t[i].name != t[j].name
  }

  /** After any sequence of operations the table answers like a map, under case-folded names when it is told to fold;
      each name is there once, numbered in the order of first appearance. */
  lemma {:induction false} AnswersLikeAMap(ops: seq<Op>, n: Name, foldsCase: bool)
    ensures var t := Run(ops, foldsCase);
      && Distinct(t) && Names(t) == FirstAppearances(ops, foldsCase)
      && Latest(ops, n, foldsCase) == (if Find(t, n).Some? then Some(t[Find(t, n).value]) else None)
    decreases |ops|
  {
    hide Fold, Do, Find, Names, Distinct;
    if ops == [] {
      NothingNamed(n);
    } else {
      AnswersLikeAMap(ops[..|ops| - 1], n, foldsCase);
      OpEffect(Run(ops[..|ops| - 1], foldsCase), ops[|ops| - 1], n, foldsCase);
      OpNames(Run(ops[..|ops| - 1], foldsCase), ops[|ops| - 1], foldsCase);
    }
  }

  lemma {:induction false} NothingNamed(n: Name)
    ensures Distinct([]) && Names([]) == [] && Find([], n).None?
  {
  }

  /** One operation puts its name behind the others unless it is there. */
  lemma {:induction false} OpNames(t: seq<Symbol>, op: Op, foldsCase: bool)
    ensures var f := Fold(op.name, foldsCase);
      Names(Do(t, op, foldsCase)) == if f in Names(t) then Names(t) else Names(t) + [f]
  {
    hide Fold;
    var f := Fold(op.name, foldsCase);
    if Find(t, f).Some? { assert Names(t)[Find(t, f).value] == f; }
  }

  /** Folding turns small letters into capital ones and changes nothing else. */
  lemma {:induction false} FoldIs(name: Name, i: nat)
    requires i < |name|
    ensures Fold(name, true)[i] == (if 0x61 <= name[i] <= 0x7A then name[i] - 0x20 else name[i])
    ensures Fold(name, false) == name
  {
    FoldCharIs(name[i]);
  }

  lemma {:induction false} FoldCharIs(c: bv8)
    ensures FoldChar(c) == if 0x61 <= c <= 0x7A then c - 0x20 else c
  {
  }

  /** In a folding table "ADD" and "add" are one symbol: what one is given the other has. */
  lemma {:induction false} CaseFolded(ops: seq<Op>, value: Word)
    ensures var big, small: Name := [0x41, 0x44, 0x44], [0x61, 0x64, 0x64];
      var t := Run(ops + [DefineOp(big, value)], true);
      && Find(t, Fold(small, true)).Some? && t[Find(t, Fold(small, true)).value] == Symbol(big, value, true)
  {
    var big, small: Name := [0x41, 0x44, 0x44], [0x61, 0x64, 0x64];
    assert Fold(small, true) == big && Fold(big, true) == big;
    var more := ops + [DefineOp(big, value)];
    assert more[..|more| - 1] == ops;
    AnswersLikeAMap(more, big, true);
  }

  /** What defining a label reports, against what a map with the same history holds for it. */
  lemma {:induction false} DefineSays(ops: seq<Op>, name: Name, value: Word, foldsCase: bool)
    ensures var n := Fold(name, foldsCase);
      var was, says := Latest(ops, n, foldsCase), Define(Run(ops, foldsCase), n, value).1;
      && (says == Added <==> was.None?)
      && (says == Defined <==> was.Some? && !was.value.isDefined)
      && (says == Redefined <==> was.Some? && was.value.isDefined && was.value.value != value)
      && (says == Unchanged <==> was == Some(Symbol(n, value, true)))
  {
    var n := Fold(name, foldsCase);
    AnswersLikeAMap(ops, n, foldsCase);
    var t := Run(ops, foldsCase);
    if Find(t, n).Some? { assert t[Find(t, n).value].name == n; }
  }

  /** One operation touches one name. */
  lemma {:induction false} OpEffect(t: seq<Symbol>, op: Op, n: Name, foldsCase: bool)
    requires Distinct(t)
    ensures var out, f := Do(t, op, foldsCase), Fold(op.name, foldsCase);
      && Distinct(out) && |out| >= |t|
      && (n != f ==> Find(out, n) == Find(t, n) && (Find(t, n).Some? ==> out[Find(t, n).value] == t[Find(t, n).value]))
      && Find(out, f).Some?
      && out[Find(out, f).value] ==
         (if op.DefineOp? then Symbol(f, op.value, true)
          else if Find(t, f).Some? then t[Find(t, f).value] else Symbol(f, 0, false))
  {
    var out, f := Do(t, op, foldsCase), Fold(op.name, foldsCase);
    if Find(t, f).None? {
      assert out[..|t|] == t;
    } else {
      FindUnique(out, f, Find(t, f).value);
      if n != f {
        if Find(t, n).Some? {
          FindUnique(out, n, Find(t, n).value);
        }
      }
    }
  }

  lemma {:induction false} FindUnique(t: seq<Symbol>, n: Name, i: nat)
    requires Distinct(t) && i < |t| && t[i].name == n
    ensures Find(t, n) == Some(i)
  {
  }

  lemma {:induction false} NoneFound(t: seq<Symbol>, n: Name)
    requires forall j :: 0 <= j < |t| ==> t[j].name != n
    ensures Find(t, n) == None
  {
  }

  // ---------------------------------------------------------------- the chains

  /** The loop of sym_string_copy, from character `i` on. */
  function HashFrom(name: Name, i: nat, hash: bv32): bv32
    requires i <= |name|
    decreases |name| - i
  {
    if i == |name| then hash else HashFrom(name, i + 1, ((hash << 5) ^ (hash >> 11)) + (name[i] as bv32))
  }

  function Hash(name: Name): bv32 {
    HashFrom(name, 0, 0)
  }

  /** hash & SYM_TAB_LIST_MASK, as an index. */
  function Bucket(hash: bv32): (b: nat)
    ensures b < SYM_TAB_LIST_COUNT
  {
    (hash & 15) as nat
  }

  /** sym_string_copy: the name, folded if need be, and its hash. */
  method StringCopy(name: Name, foldsCase: bool) returns (kept: Name, hash: bv32)
    ensures kept == Fold(name, foldsCase) && hash == Hash(kept)
  {
    ghost var f := Fold(name, foldsCase);
    var count := 0;
    kept, hash := [], 0;
    while count < |name|
      invariant count <= |name| && kept == f[..count]
      invariant Hash(f) == HashFrom(f, count, hash)
    {
      var c := name[count];
      if foldsCase && 0x61 <= c <= 0x7A { c := c & 0xDF; }
      assert c == f[count];
      hash := ((hash << 5) ^ (hash >> 11)) + (c as bv32);
      kept := kept + [c];
      count := count + 1;
    }
  }

  /** sym_record. */
  class Record {
    const name: Name
    const hash: bv32
    var value: Word
    var isDefined: bool
    var identifier: nat
    var next: Record?

    /** sym_create_record. */
    constructor (name: Name, value: Word, isDefined: bool, foldsCase: bool)
      ensures this.name == Fold(name, foldsCase) && hash == Hash(this.name)
      ensures Content() == Symbol(this.name, value, isDefined) && next == null
    {
      var kept, h := StringCopy(name, foldsCase);
      this.name, hash, this.value, this.isDefined, identifier, next := kept, h, value, isDefined, 0, null;
    }

    function Content(): Symbol
      reads this
    {
      Symbol(name, value, isDefined)
    }
  }

  /** The records of one chain are linked in this order, from `first` on. */
  ghost predicate Linked(first: Record?, chain: seq<Record>)
    reads chain`next
    decreases |chain|
  {
    if chain == [] then first == null else first == chain[0] && Linked(chain[0].next, chain[1..])
  }

  /** Every record is in the chain of its hash, and nowhere else, under a name of its own. */
  ghost predicate Homed(chains: seq<seq<Record>>, order: seq<Record>) {
    && |chains| == SYM_TAB_LIST_COUNT
    && (forall b, i :: 0 <= b < |chains| && 0 <= i < |chains[b]| ==>
          chains[b][i] in order && Bucket(chains[b][i].hash) == b)
    && (forall r :: r in order ==> r in chains[Bucket(r.hash)] && r.hash == Hash(r.name) && |r.name| <= SYM_NAME_MAX)
    && forall i, j :: 0 <= i < j < |order| ==> order[i].name != order[j].name
  }

  lemma {:induction false} HomedMore(chains: seq<seq<Record>>, order: seq<Record>, record: Record)
    requires Homed(chains, order) && record.hash == Hash(record.name) && |record.name| <= SYM_NAME_MAX
    requires forall i :: 0 <= i < |order| ==> order[i].name != record.name
    ensures var list := Bucket(record.hash); Homed(chains[list := [record] + chains[list]], order + [record])
  {
    hide Hash, Bucket;
    var list := Bucket(record.hash);
    var more := chains[list := [record] + chains[list]];
    forall b, i | 0 <= b < |more| && 0 <= i < |more[b]|
      ensures more[b][i] in order + [record] && Bucket(more[b][i].hash) == b
    {
      if b == list && i > 0 { assert more[b][i] == chains[b][i - 1]; }
    }
    forall r | r in order + [record]
      ensures r in more[Bucket(r.hash)]
    {
      if r != record && Bucket(r.hash) == list {
        assert r in chains[list];
        var i :| 0 <= i < |chains[list]| && chains[list][i] == r;
        assert more[list][i + 1] == r;
      } else if r == record {
        assert more[list][0] == r;
      }
    }
  }

  lemma {:induction false} NotThere(chains: seq<seq<Record>>, order: seq<Record>, record: Record)
    requires Homed(chains, order) && record !in order
    ensures |chains| == SYM_TAB_LIST_COUNT && forall b :: 0 <= b < |chains| ==> record !in chains[b]
  {
    hide Hash, Bucket;
  }

  class Table {
    const foldsCase: bool
    const pList: array<Record?>
    var symbolNumber: nat
    ghost var chains: seq<seq<Record>>
    ghost var order: seq<Record>         // as they were added

    ghost predicate Valid()
      reads this, pList, order
    {
      && pList.Length == SYM_TAB_LIST_COUNT && Homed(chains, order)
      && (forall b :: 0 <= b < |chains| ==> Linked(pList[b], chains[b]))
      && symbolNumber == |order| && forall i :: 0 <= i < |order| ==> order[i].identifier == i
    }

    /** The table as a value. */
    ghost function Now(): (t: seq<Symbol>)
      reads this, order
      ensures |t| == |order| && forall i :: 0 <= i < |t| ==> t[i] == order[i].Content()
    {
      seq(|order|, i requires 0 <= i < |order| reads this, order => order[i].Content())
    }

    /** sym_create_table. */
    constructor (foldsCase: bool)
      ensures Valid() && Now() == [] && this.foldsCase == foldsCase && fresh(pList)
    {
      this.foldsCase, symbolNumber := foldsCase, 0;
      pList := new Record?[SYM_TAB_LIST_COUNT](_ => null);
      chains, order := seq(SYM_TAB_LIST_COUNT, _ => []), [];
    }

    /** sym_find_record: the record with the same name as `sought`, if there is one. */
    method FindRecord(sought: Record) returns (r: Record?, ghost i: nat)
      requires Valid() && sought.hash == Hash(sought.name) && |sought.name| <= SYM_NAME_MAX
      ensures r == null ==> Find(Now(), sought.name) == None
      ensures r != null ==> i < |order| && r == order[i] && Find(Now(), sought.name) == Some(i)
    {
      hide Hash, HashFrom, Bucket, Find;
      ghost var b := Bucket(sought.hash);
      r := pList[Bucket(sought.hash)];
      ghost var k := 0;
      i := 0;
      while r != null
        invariant k <= |chains[b]| && Linked(r, chains[b][k..])
        invariant forall j :: 0 <= j < k ==> chains[b][j].name != sought.name
        decreases |chains[b]| - k
      {
        assert r == chains[b][k];
        var found := r.hash == sought.hash && |r.name| == |sought.name|;
        if found { found := SameName(r.name, sought.name); }
        if found {
          i :| 0 <= i < |order| && order[i] == r;
          FindUnique(Now(), sought.name, i);
          return;
        }
        assert chains[b][k..][1..] == chains[b][k + 1..];
        r := r.next;
        k := k + 1;
      }
      assert k == |chains[b]|;
      forall j | 0 <= j < |order| ensures order[j].name != sought.name {
        assert order[j] in order;
        assert order[j].hash == sought.hash ==> order[j] in chains[b];
      }
      NoneFound(Now(), sought.name);
    }

    /** sym_add_to_table: at the front of its chain. */
    method AddToTable(record: Record)
      requires Valid() && record !in order && record.hash == Hash(record.name) && |record.name| <= SYM_NAME_MAX
      requires Find(Now(), record.name).None?
      modifies this`symbolNumber, this`chains, this`order, pList, record`identifier, record`next
      ensures Valid() && order == old(order) + [record] && Now() == old(Now()) + [record.Content()]
    {
      hide Hash, Bucket, Find, Homed;
      var list := Bucket(record.hash);
      ghost var was := chains;
      NotThere(chains, order, record);
      HomedMore(chains, order, record);
      record.identifier := symbolNumber;
      symbolNumber := symbolNumber + 1;
      record.next := pList[list];
      pList[list] := record;
      assert forall b :: 0 <= b < |was| && b != list ==> Linked(pList[b], was[b]);
      assert Linked(record.next, was[list]);
      chains := chains[list := [record] + chains[list]];
      order := order + [record];
      assert chains[list][1..] == was[list];
    }

    /** sym_find_label. */
    method FindLabel(name: Name) returns (r: Record?, ghost i: nat)
      requires Valid() && |name| <= SYM_NAME_MAX
      ensures r == null ==> Find(Now(), Fold(name, foldsCase)) == None
      ensures r != null ==> i < |order| && r == order[i] && Find(Now(), Fold(name, foldsCase)) == Some(i)
    {
      hide Homed, Linked, Find, Hash, HashFrom, Fold;
      var temp := new Record(name, 0, false, foldsCase);
      r, i := FindRecord(temp);
    }

    /** sym_locate_label, and sym_add_to_table when the label is new. */
    method EnterLabel(name: Name) returns (found: bool, record: Record)
      requires Valid() && |name| <= SYM_NAME_MAX
      modifies this`symbolNumber, this`chains, this`order, pList
      ensures Valid() && Now() == Enter(old(Now()), Fold(name, foldsCase))
      ensures found <==> Find(old(Now()), Fold(name, foldsCase)).Some?
      ensures record in order && record.name == Fold(name, foldsCase)
    {
      hide Homed, Linked, Find, Hash, HashFrom, Fold;
      var r := new Record(name, 0, false, foldsCase);
      var twin, i := FindRecord(r);
      if twin == null {
        AddToTable(r);
        return false, r;
      }
      found, record := true, twin;
    }

    /** The record number `i` takes a value. */
    method SetValue(twin: Record, value: Word, ghost i: nat) returns (result: DefnReturn)
      requires Valid() && i < |order| && twin == order[i]
      modifies twin`value, twin`isDefined
      ensures Valid() && Now() == old(Now())[i := Symbol(twin.name, value, true)]
      ensures result == if !old(twin.isDefined) then Defined else if old(twin.value) != value then Redefined
              else Unchanged
    {
      hide Homed, Linked, Find;
      if !twin.isDefined {
        result := Defined;
      } else if twin.value != value {
        result := Redefined;
      } else {
        result := Unchanged;
      }
      ApartFrom(chains, order, i);
      twin.isDefined, twin.value := true, value;
    }

    /** sym_define_label. */
    method DefineLabel(name: Name, value: Word) returns (result: DefnReturn, record: Record)
      requires Valid() && |name| <= SYM_NAME_MAX
      modifies this`symbolNumber, this`chains, this`order, pList, order
      ensures Valid() && (Now(), result) == Define(old(Now()), Fold(name, foldsCase), value)
      ensures record in order && record.name == Fold(name, foldsCase) && record.value == value && record.isDefined
    {
      hide Homed, Linked, Find, Hash, HashFrom, Fold;
      var r := new Record(name, value, true, foldsCase);
      var twin, i := FindRecord(r);
      if twin == null {
        AddToTable(r);
        result, record := Added, r;
      } else {
        result := SetValue(twin, value, i);
        record := twin;
      }
    }
  }

  lemma {:induction false} ApartFrom(chains: seq<seq<Record>>, order: seq<Record>, i: nat)
    requires Homed(chains, order) && i < |order|
    ensures forall j :: 0 <= j < |order| && j != i ==> order[j] != order[i]
  {
  }

  /** Character by character. */
  method SameName(a: Name, b: Name) returns (same: bool)
    requires |a| == |b|
    ensures same <==> a == b
  {
    var i := 0;
    same := true;
    while i < |a| && same
      invariant i <= |a|
      invariant same ==> a[..i] == b[..i]
      invariant !same ==> a != b
      decreases |a| - i, same
    {
      if a[i] != b[i] {
        same := false;
      } else {
        i := i + 1;
      }
    }
  }
}
