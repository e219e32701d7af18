/** How long a reducer's result is as JSON, computed on the Starlark heap, where
    lists and dictionaries may be shared or contain themselves. */
module JsonSize {
  import opened Base
  import opened Decimals
  import opened JsonText

  datatype Value =
    | NoneValue
    | Bool(b: bool)
    | Str(s: string)
    | Int(n: int)
    | Float(json: Option<string>) // the library's JSON text, if it has one
    | Ref(id: nat)

  datatype Entry = Entry(key: Value, value: Value)

  datatype Object =
    | List(items: seq<Value>)
    | Tuple(items: seq<Value>)
    | Dict(entries: seq<Entry>)
    | Other

  type Heap = map<nat, Object>

  datatype SizeError = Cyclic | NotSerializable | KeyNotString | NoFloatText

  function Lookup(h: Heap, id: nat): Object {
    if id in h then h[id] else Other
  }

  // ----------------------------------------------------------- what a value is

  /** `j` is the tree a value stands for. */
  ghost predicate Unfolds(h: Heap, v: Value, j: Json)
    decreases j
  {
    match v
    case NoneValue => j == Null
    case Bool(b) => j == Boolean(b)
    case Str(s) => j == String(s)
    case Int(n) => j == Number(Decimal(n))
    case Float(json) => json.Some? && j == Number(json.value)
    case Ref(id) =>
      match Lookup(h, id)
      case List(items) => j.Array? && UnfoldsItems(h, items, j.items)
      case Tuple(items) => j.Array? && UnfoldsItems(h, items, j.items)
      case Dict(entries) => j.Object? && UnfoldsEntries(h, entries, j.members)
      case Other => false
  }

  ghost predicate UnfoldsItems(h: Heap, items: seq<Value>, js: seq<Json>)
    decreases js
  {
    |items| == |js| && forall i :: 0 <= i < |js| ==> Unfolds(h, items[i], js[i])
  }

  ghost predicate UnfoldsEntries(h: Heap, entries: seq<Entry>, ms: seq<Member>)
    decreases ms
  {
    |entries| == |ms| &&
    forall i :: 0 <= i < |ms| ==> entries[i].key == Str(ms[i].key) && Unfolds(h, entries[i].value, ms[i].value)
  }

  // ---------------------------------------------------- unfolding with a stack

  /** Objects not being visited. */
  function Unseen(h: Heap, ancestors: seq<nat>): set<nat> {
    set id | id in h && id !in ancestors
  }

  lemma VisitShrinks(h: Heap, ancestors: seq<nat>, id: nat)
    ensures id in Unseen(h, ancestors) ==> Unseen(h, ancestors + [id]) < Unseen(h, ancestors)
  {
    if id in Unseen(h, ancestors) {
      assert id !in Unseen(h, ancestors + [id]);
    }
  }

  /** Unfolds a value below `ancestors`, stopping at the first error. */
  function Unfold(h: Heap, v: Value, ancestors: seq<nat>): Result<Json, SizeError>
    decreases Unseen(h, ancestors), 0
  {
    match v
    case NoneValue => Ok(Null)
    case Bool(b) => Ok(Boolean(b))
    case Str(s) => Ok(String(s))
    case Int(n) => Ok(Number(Decimal(n)))
    case Float(json) => if json.Some? then Ok(Number(json.value)) else Err(NoFloatText)
    case Ref(id) =>
      VisitShrinks(h, ancestors, id);
      if id in ancestors then Err(Cyclic)
      else
        match Lookup(h, id)
        case Other => Err(NotSerializable)
        case Dict(entries) =>
          (match UnfoldEntries(h, entries, ancestors + [id])
           case Ok(ms) => Ok(Object(ms))
           case Err(e) => Err(e))
        case _ =>
          (match UnfoldItems(h, h[id].items, ancestors + [id])
           case Ok(js) => Ok(Array(js))
           case Err(e) => Err(e))
  }

  function UnfoldItems(h: Heap, items: seq<Value>, ancestors: seq<nat>): (r: Result<seq<Json>, SizeError>)
    ensures r.Ok? ==> |r.value| == |items|
    decreases Unseen(h, ancestors), |items| + 1
  {
    if items == [] then Ok([])
    else
      match UnfoldItems(h, items[..|items| - 1], ancestors)
      case Err(e) => Err(e)
      case Ok(js) =>
        match Unfold(h, items[|items| - 1], ancestors)
        case Err(e) => Err(e)
        case Ok(j) => Ok(js + [j])
  }

  function UnfoldEntries(h: Heap, entries: seq<Entry>, ancestors: seq<nat>): (r: Result<seq<Member>, SizeError>)
    ensures r.Ok? ==> |r.value| == |entries|
    decreases Unseen(h, ancestors), |entries| + 1
  {
    if entries == [] then Ok([])
    else
      match UnfoldEntries(h, entries[..|entries| - 1], ancestors)
      case Err(e) => Err(e)
      case Ok(ms) =>
        var last := entries[|entries| - 1];
        if !last.key.Str? then Err(KeyNotString)
        else
          match Unfold(h, last.value, ancestors)
          case Err(e) => Err(e)
          case Ok(j) => Ok(ms + [Member(last.key.s, j)])
  }

  // ----------------------------------------------------------------- the lengths

  function Cap(n: nat): nat {
    if n > USIZE_MAX then USIZE_MAX else n
  }

  /** `serialized_json_string_len`, byte by byte. */
  function ByteLen(c: char): nat {
    if c in "\"\\\U{8}\t\n\U{C}\r" then 2 else if c < ' ' then 6 else 1
  }

  function StringLen(s: string): nat {
    if s == [] then 2 else SatAdd(StringLen(s[..|s| - 1]), ByteLen(s[|s| - 1]))
  }

  lemma {:induction false} StringLenExact(s: string)
    ensures StringLen(s) == Cap(|Quoted(s)|)
  {
    if s != [] {
      StringLenExact(s[..|s| - 1]);
      assert |Escape(s[|s| - 1])| == ByteLen(s[|s| - 1]);
    }
  }

  method UnsignedDecimalLen(value: nat) returns (digits: nat)
    ensures digits == |Digits(value)|
  {
    var rest := value;
    digits := 1;
    while rest >= 10
      invariant digits - 1 + |Digits(rest)| == |Digits(value)|
    {
      rest := rest / 10;
      digits := digits + 1;
    }
  }

  lemma {:induction false} DigitsShort(n: nat)
    ensures |Digits(n)| <= n + 1
  {
    if n >= 10 {
      DigitsShort(n / 10);
    }
  }

  const I64_MIN: int := -0x8000_0000_0000_0000
  const I64_MAX: int := 0x7FFF_FFFF_FFFF_FFFF

  method IntLen(n: int) returns (len: nat)
    ensures len == Cap(|Decimal(n)|)
  {
    if I64_MIN <= n <= I64_MAX {
      len := UnsignedDecimalLen(if n < 0 then -n else n);
      len := (if n < 0 then 1 else 0) + len;
      DigitsShort(if n < 0 then -n else n);
    } else {
      len := Cap(|Decimal(n)|);
    }
  }

  /** The length of the text, saturated, or the error met. */
  function Sized(r: Result<Json, SizeError>): Result<nat, SizeError> {
    match r
    case Ok(j) => Ok(Cap(|Text(j)|))
    case Err(e) => Err(e)
  }

  function SizedItems(r: Result<seq<Json>, SizeError>): Result<nat, SizeError> {
    match r
    case Ok(js) => Ok(Cap(|Text(Array(js))|))
    case Err(e) => Err(e)
  }

  function SizedEntries(r: Result<seq<Member>, SizeError>): Result<nat, SizeError> {
    match r
    case Ok(ms) => Ok(Cap(|Text(Object(ms))|))
    case Err(e) => Err(e)
  }

  /** What an entry adds to a total. */
  function EntrySized(h: Heap, entry: Entry, index: nat, total: nat, ancestors: seq<nat>): Result<nat, SizeError> {
    if !entry.key.Str? then Err(KeyNotString)
    else
      match Unfold(h, entry.value, ancestors)
      case Err(e) => Err(e)
      case Ok(j) => Ok(Cap(total + (if index == 0 then 0 else 1) + |Quoted(entry.key.s)| + 1 + |Text(j)|))
  }

  lemma {:induction false} ListedSnoc(js: seq<Json>, j: Json)
    ensures |Listed(js + [j])| == |Listed(js)| + (if js == [] then 0 else 1) + |Text(j)|
  {
    assert (js + [j])[..|js|] == js;
  }

  lemma {:induction false} MemberedSnoc(ms: seq<Member>, m: Member)
    ensures |Membered(ms + [m])|
         == |Membered(ms)| + (if ms == [] then 0 else 1) + |Quoted(m.key)| + 1 + |Text(m.value)|
  {
    assert (ms + [m])[..|ms|] == ms;
  }

  /** An error in a prefix is the error of the whole. */
  lemma {:induction false} ItemsStop(h: Heap, items: seq<Value>, n: nat, ancestors: seq<nat>)
    requires n <= |items|
    ensures UnfoldItems(h, items[..n], ancestors).Err? ==>
              UnfoldItems(h, items, ancestors) == UnfoldItems(h, items[..n], ancestors)
    decreases |items|
  {
    if n == |items| {
      assert items[..n] == items;
    } else {
      assert items[..|items| - 1][..n] == items[..n];
      ItemsStop(h, items[..|items| - 1], n, ancestors);
    }
  }

  lemma {:induction false} EntriesStop(h: Heap, entries: seq<Entry>, n: nat, ancestors: seq<nat>)
    requires n <= |entries|
    ensures UnfoldEntries(h, entries[..n], ancestors).Err? ==>
              UnfoldEntries(h, entries, ancestors) == UnfoldEntries(h, entries[..n], ancestors)
    decreases |entries|
  {
    if n == |entries| {
      assert entries[..n] == entries;
    } else {
      assert entries[..|entries| - 1][..n] == entries[..n];
      EntriesStop(h, entries[..|entries| - 1], n, ancestors);
    }
  }

  ghost function ItemsCount(h: Heap, items: seq<Value>, n: nat, ancestors: seq<nat>): nat
    requires n <= |items| && UnfoldItems(h, items[..n], ancestors).Ok?
  {
    |Text(Array(UnfoldItems(h, items[..n], ancestors).value))|
  }

  /** The bytes so far are those of the array read so far. */
  ghost predicate ItemsCounted(h: Heap, items: seq<Value>, n: nat, ancestors: seq<nat>, bytes: nat) {
    && n <= |items| && UnfoldItems(h, items[..n], ancestors).Ok?
    && bytes == Cap(ItemsCount(h, items, n, ancestors))
  }

  function ItemSized(h: Heap, item: Value, index: nat, total: nat, ancestors: seq<nat>): Result<nat, SizeError> {
    match Unfold(h, item, ancestors)
    case Err(e) => Err(e)
    case Ok(j) => Ok(Cap(total + (if index == 0 then 0 else 1) + |Text(j)|))
  }

  lemma {:induction false} ItemCounts(h: Heap, items: seq<Value>, n: nat, ancestors: seq<nat>, bytes: nat)
    requires n < |items| && ItemsCounted(h, items, n, ancestors, bytes)
    ensures var r := ItemSized(h, items[n], n, ItemsCount(h, items, n, ancestors), ancestors);
            && (r.Ok? ==> ItemsCounted(h, items, n + 1, ancestors, r.value))
            && (r.Err? ==> SizedItems(UnfoldItems(h, items, ancestors)) == r)
  {
    var js := UnfoldItems(h, items[..n], ancestors).value;
    assert items[..n + 1][..n] == items[..n];
    ItemsStop(h, items, n + 1, ancestors);
    if Unfold(h, items[n], ancestors).Ok? {
      ListedSnoc(js, Unfold(h, items[n], ancestors).value);
    }
  }

  ghost function EntriesCount(h: Heap, entries: seq<Entry>, n: nat, ancestors: seq<nat>): nat
    requires n <= |entries| && UnfoldEntries(h, entries[..n], ancestors).Ok?
  {
    |Text(Object(UnfoldEntries(h, entries[..n], ancestors).value))|
  }

  ghost predicate EntriesCounted(h: Heap, entries: seq<Entry>, n: nat, ancestors: seq<nat>, bytes: nat) {
    && n <= |entries| && UnfoldEntries(h, entries[..n], ancestors).Ok?
    && bytes == Cap(EntriesCount(h, entries, n, ancestors))
  }

  lemma {:induction false} EntryCounts(h: Heap, entries: seq<Entry>, n: nat, ancestors: seq<nat>, bytes: nat)
    requires n < |entries| && EntriesCounted(h, entries, n, ancestors, bytes)
    ensures var r := EntrySized(h, entries[n], n, EntriesCount(h, entries, n, ancestors), ancestors);
            && (r.Ok? ==> EntriesCounted(h, entries, n + 1, ancestors, r.value))
            && (r.Err? ==> SizedEntries(UnfoldEntries(h, entries, ancestors)) == r)
  {
    var ms := UnfoldEntries(h, entries[..n], ancestors).value;
    assert entries[..n + 1][..n] == entries[..n];
    EntriesStop(h, entries, n + 1, ancestors);
    if entries[n].key.Str? && Unfold(h, entries[n].value, ancestors).Ok? {
      MemberedSnoc(ms, Member(entries[n].key.s, Unfold(h, entries[n].value, ancestors).value));
    }
  }

  class Measurer {
    const heap: Heap
    var ancestors: seq<nat>

    constructor (heap: Heap)
      ensures this.heap == heap && ancestors == []
    {
      this.heap := heap;
      ancestors := [];
    }

    /** `serialized_json_len_inner`; the stack is as before after a success. */
    method ValueLen(value: Value) returns (r: Result<nat, SizeError>)
      modifies this
      ensures r == Sized(Unfold(heap, value, old(ancestors)))
      ensures old(ancestors) <= ancestors && (r.Ok? ==> ancestors == old(ancestors))
      decreases Unseen(heap, ancestors), 0
    {
      match value
      case NoneValue => return Ok(4);
      case Bool(b) => return Ok(if b then 4 else 5);
      case Str(s) =>
        StringLenExact(s);
        return Ok(StringLen(s));
      case Int(n) =>
        var len := IntLen(n);
        return Ok(len);
      case Float(json) =>
        if json.None? { return Err(NoFloatText); }
        return Ok(Cap(|json.value|));
      case Ref(id) =>
        if id in ancestors { return Err(Cyclic); }
        ancestors := ancestors + [id];
        VisitShrinks(heap, old(ancestors), id);
        match Lookup(heap, id) {
          case List(items) => r := SequenceLen(items);
          case Tuple(items) => r := SequenceLen(items);
          case Dict(entries) =>
            r := DictLen(entries);
            if r.Err? { return; }
          case Other => return Err(NotSerializable);
        }
        ancestors := ancestors[..|ancestors| - 1];
    }

    /** `serialized_json_sequence_len`. */
    method SequenceLen(items: seq<Value>) returns (r: Result<nat, SizeError>)
      modifies this
      ensures r == SizedItems(UnfoldItems(heap, items, old(ancestors)))
      ensures old(ancestors) <= ancestors && (r.Ok? ==> ancestors == old(ancestors))
      decreases Unseen(heap, ancestors), 1
    {
      var bytes := 2;
      for index := 0 to |items|
        invariant ancestors == old(ancestors)
        invariant ItemsCounted(heap, items, index, ancestors, bytes)
      {
        ItemCounts(heap, items, index, ancestors, bytes);
        if index != 0 {
          bytes := SatAdd(bytes, 1);
        }
        var len := ValueLen(items[index]);
        if len.Err? {
          return len;
        }
        bytes := SatAdd(bytes, len.value);
      }
      assert items[..|items|] == items;
      return Ok(bytes);
    }

    /** One round of the dictionary loop: adds an entry to the bytes so far. */
    method EntryLen(entry: Entry, index: nat, bytes: nat, ghost total: nat) returns (r: Result<nat, SizeError>)
      requires bytes == Cap(total)
      modifies this
      ensures r == EntrySized(heap, entry, index, total, old(ancestors))
      ensures old(ancestors) <= ancestors && (r.Ok? ==> ancestors == old(ancestors))
      decreases Unseen(heap, ancestors), 1
    {
      if !entry.key.Str? {
        return Err(KeyNotString);
      }
      var sum := if index != 0 then SatAdd(bytes, 1) else bytes;
      StringLenExact(entry.key.s);
      sum := SatAdd(SatAdd(sum, StringLen(entry.key.s)), 1);
      r := ValueLen(entry.value);
      if r.Ok? {
        r := Ok(SatAdd(sum, r.value));
      }
    }

    /** The dictionary branch of `serialized_json_len_inner`. */
    method DictLen(entries: seq<Entry>) returns (r: Result<nat, SizeError>)
      modifies this
      ensures r == SizedEntries(UnfoldEntries(heap, entries, old(ancestors)))
      ensures old(ancestors) <= ancestors && (r.Ok? ==> ancestors == old(ancestors))
      decreases Unseen(heap, ancestors), 2
    {
      var bytes := 2;
      for index := 0 to |entries|
        invariant ancestors == old(ancestors)
        invariant EntriesCounted(heap, entries, index, ancestors, bytes)
      {
        EntryCounts(heap, entries, index, ancestors, bytes);
        r := EntryLen(entries[index], index, bytes, EntriesCount(heap, entries, index, ancestors));
        if r.Err? {
          return;
        }
        bytes := r.value;
      }
      assert entries[..|entries|] == entries;
      return Ok(bytes);
    }
  }

  /** `serialized_json_len`. */
  method SerializedJsonLen(heap: Heap, value: Value) returns (r: Result<nat, SizeError>)
    ensures r == Sized(Unfold(heap, value, []))
  {
    var measurer := new Measurer(heap);
    r := measurer.ValueLen(value);
  }
}
