/**
 * The engine factory simulation: machines that draw parts from a shared
 * list and add products to the item being built, the part-drawing routine
 * `try_to_use_parts` that rolls back when a part is missing, and the
 * fail-fast production line of `EngineFactory`.
 *
 * JavaScript arrays shared by reference are `PartList` objects; the
 * `PartNameCollection` object that `try_to_use_parts` decrements and prunes
 * is a `PartNameCollection` object whose entries keep the key order.
 */
module Factory {
  import opened Common

  // ---------------------------------------------------------------------
  // Parts
  // ---------------------------------------------------------------------

  /** The four part classes; a part's class fixes its name and description. */
  datatype Part = IronPlate | IronGearWheel | SteelPlate | Pipe
  {
    function Name(): string
    {
      match this
      case IronPlate => "Iron Plate"
      case IronGearWheel => "Iron Gear Wheel"
      case SteelPlate => "Steel Plate"
      case Pipe => "Pipe"
    }

    function Description(): string
    {
      match this
      case IronPlate => "A plate of iron"
      case IronGearWheel => "A gear made out of iron"
      case SteelPlate => "A plate of steel"
      case Pipe => "A pipe made out of iron"
    }
  }

  /** The part that carries the name `n`, if any; no two parts share a name. */
  function PartNamed(n: string): (r: Option<Part>)
    ensures r.Some? ==> r.value.Name() == n
  {
    if n == "Iron Plate" then Some(IronPlate)
    else if n == "Iron Gear Wheel" then Some(IronGearWheel)
    else if n == "Steel Plate" then Some(SteelPlate)
    else if n == "Pipe" then Some(Pipe)
    else None
  }

  /** Every part is found by its own name: names tell the part classes apart. */
  lemma NamedByName(p: Part)
    ensures PartNamed(p.Name()) == Some(p)
  {
  }

  /** How many parts named `n` the list holds. */
  function Available(s: seq<Part>, n: string): nat
  {
    match PartNamed(n)
    case None => 0
    case Some(p) => multiset(s)[p]
  }

  /** A JavaScript array of parts, shared by reference. */
  class PartList {
    var items: seq<Part>

    constructor (items: seq<Part>)
      ensures this.items == items
    {
      this.items := items;
    }
  }

  /** `findIndex(part => part.name == n)`: the first part named `n`, or -1. */
  function FindIndex(s: seq<Part>, n: string): (r: int)
    ensures -1 <= r < |s|
    ensures 0 <= r ==> s[r].Name() == n
    ensures 0 <= r ==> forall k :: 0 <= k < r ==> s[k].Name() != n
    ensures r < 0 <==> Available(s, n) == 0
  {
    if s == [] then -1
    else
      AvailableCons(s, n);
      if s[0].Name() == n then 0
      else
        var r := FindIndex(s[1..], n);
        if r < 0 then -1
        else
          NoneNamedBefore(s, n, r);
          r + 1
  }

  /** No part before `r` of the tail, nor the head, is named `n`: none before `r + 1` of the list is. */
  lemma NoneNamedBefore(s: seq<Part>, n: string, r: int)
    requires s != [] && s[0].Name() != n && 0 <= r < |s| - 1
    requires forall k :: 0 <= k < r ==> s[1..][k].Name() != n
    ensures forall k :: 0 <= k < r + 1 ==> s[k].Name() != n
  {
    forall k | 1 <= k < r + 1
      ensures s[k].Name() != n
    {
      assert s[k] == s[1..][k - 1];
    }
  }

  /** The parts named `n` in a list are its head's and its tail's. */
  lemma AvailableCons(s: seq<Part>, n: string)
    requires s != []
    ensures Available(s, n) == (if s[0].Name() == n then 1 else 0) + Available(s[1..], n)
  {
    assert s == [s[0]] + s[1..];
    NamedByName(s[0]);
  }


  /** `s` without its first part named `n`; `s` itself when no part is. */
  function RemoveFirst(s: seq<Part>, n: string): seq<Part>
  {
    if s == [] then []
    else if s[0].Name() == n then s[1..]
    else [s[0]] + RemoveFirst(s[1..], n)
  }

  /** Splicing out the part `findIndex` found removes the first part named `n`. */
  lemma {:induction false} SpliceFirst(s: seq<Part>, n: string)
    requires 0 <= FindIndex(s, n)
    ensures s[..FindIndex(s, n)] + s[FindIndex(s, n) + 1..] == RemoveFirst(s, n)
  {
    if s[0].Name() != n {
      var k := FindIndex(s[1..], n);
      SpliceFirst(s[1..], n);
      SpliceAfterHead(s, k);
    }
  }

  /** Splicing out position `k + 1` keeps the head in front of the tail spliced at `k`. */
  lemma SpliceAfterHead<T>(s: seq<T>, k: int)
    requires 0 <= k < |s| - 1
    ensures s[..k + 1] + s[k + 2..] == [s[0]] + (s[1..][..k] + s[1..][k + 1..])
  {
    assert s[..k + 1] == [s[0]] + s[1..][..k];
  }

  /** `s` without its first `t` parts named `n`, removed one at a time. */
  function RemoveFirsts(s: seq<Part>, n: string, t: nat): seq<Part>
  {
    if t == 0 then s else RemoveFirst(RemoveFirsts(s, n, t - 1), n)
  }

  /** `t` parts named `n`, in a row; none when no part carries the name. */
  function CopiesSeq(n: string, t: nat): seq<Part>
  {
    if t == 0 || PartNamed(n).None? then [] else CopiesSeq(n, t - 1) + [PartNamed(n).value]
  }

  /** Removing the part at `k` takes exactly that part out of the multiset. */
  lemma RemoveAt(s: seq<Part>, k: int)
    requires 0 <= k < |s|
    ensures multiset(s[..k] + s[k + 1..]) + multiset{s[k]} == multiset(s)
  {
    assert s == s[..k] + [s[k]] + s[k + 1..];
  }

  // ---------------------------------------------------------------------
  // Part name collections
  // ---------------------------------------------------------------------

  /** One key of a `PartNameCollection` with its count. */
  datatype Entry = Entry(name: string, quantity: int)

  predicate DistinctNames(entries: seq<Entry>)
  {
    forall i, j :: 0 <= i < j < |entries| ==> entries[i].name != entries[j].name
  }

  function NameSet(entries: seq<Entry>): set<string>
  {
    set e | e in entries :: e.name
  }

  /** The position of the key `n`, or -1. */
  function IndexOfName(entries: seq<Entry>, n: string): (r: int)
    ensures -1 <= r < |entries|
    ensures 0 <= r ==> entries[r].name == n
  {
    if entries == [] then -1
    else
      assert entries == [entries[0]] + entries[1..];
      if entries[0].name == n then 0
      else
        var r := IndexOfName(entries[1..], n);
        if r < 0 then -1 else r + 1
  }

  /** A key that no earlier entry carries is found where it stands. */
  lemma IndexOfNameAt(prefix: seq<Entry>, e: Entry, suffix: seq<Entry>)
    requires e.name !in NameSet(prefix)
    ensures IndexOfName(prefix + [e] + suffix, e.name) == |prefix|
  {
    if prefix != [] {
      assert (prefix + [e] + suffix)[1..] == prefix[1..] + [e] + suffix;
      assert prefix == [prefix[0]] + prefix[1..];
      IndexOfNameAt(prefix[1..], e, suffix);
    }
  }

  /** Rewriting the entry a key is found at, under the same key, keeps it found there. */
  lemma {:induction false} IndexOfNameUpdate(entries: seq<Entry>, at: int, e: Entry)
    requires 0 <= at && IndexOfName(entries, e.name) == at
    ensures IndexOfName(entries[at := e], e.name) == at
  {
    if at > 0 {
      assert entries[at := e][1..] == entries[1..][at - 1 := e];
      IndexOfNameUpdate(entries[1..], at - 1, e);
    }
  }

  /** An object literal such as `{"Iron Plate": 2}`, mutated in place by `try_to_use_parts`. */
  class PartNameCollection {
    var entries: seq<Entry>

    ghost predicate Valid()
      reads this
    {
      DistinctNames(entries)
    }

    constructor (entries: seq<Entry>)
      ensures this.entries == entries
    {
      this.entries := entries;
    }
  }

  /** `Object.keys`: the key names, in order. */
  function Keys(entries: seq<Entry>): (r: seq<string>)
    ensures |r| == |entries| && forall k :: 0 <= k < |r| ==> r[k] == entries[k].name
  {
    if entries == [] then [] else [entries[0].name] + Keys(entries[1..])
  }

  /** `Object.entries(...).map(([name, quantity]) => `${quantity}x ${name}`).join(", ")`. */
  function PartNameCollectionToString(entries: seq<Entry>): (r: string)
    ensures r == "" <==> entries == []
  {
    if entries == [] then ""
    else if |entries| == 1 then Render(entries[0])
    else Render(entries[0]) + ", " + PartNameCollectionToString(entries[1..])
  }

  /** One entry as `Nx name`. */
  function Render(e: Entry): (r: string)
    ensures |r| >= 3
  {
    Decimal(e.quantity) + "x " + e.name
  }

  function DigitChar(d: nat): (c: char)
    requires d < 10
    ensures '0' <= c <= '9' && c as int - '0' as int == d
  {
    "0123456789"[d]
  }

  /** The decimal digits of `n`, most significant first. */
  function Digits(n: nat): (r: string)
    ensures |r| >= 1 && forall k :: 0 <= k < |r| ==> '0' <= r[k] <= '9'
  {
    if n < 10 then [DigitChar(n)] else Digits(n / 10) + [DigitChar(n % 10)]
  }

  /** How JavaScript prints an integral `number`. */
  function Decimal(n: int): (r: string)
    ensures 'x' !in r
  {
    if n < 0 then "-" + Digits(-n) else Digits(n)
  }

  /** The value of a string of decimal digits. */
  function DigitsValue(s: string): int
  {
    if s == [] then 0 else 10 * DigitsValue(s[..|s| - 1]) + (s[|s| - 1] as int - '0' as int)
  }

  /** The value of an optionally negative decimal. */
  function DecimalValue(s: string): int
  {
    if s != [] && s[0] == '-' then -DigitsValue(s[1..]) else DigitsValue(s)
  }

  lemma {:induction false} DigitsRoundTrip(n: nat)
    ensures DigitsValue(Digits(n)) == n
  {
    if n >= 10 {
      var s := Digits(n);
      assert s[..|s| - 1] == Digits(n / 10);
      DigitsRoundTrip(n / 10);
    }
  }

  /** Reading a printed integer gives the integer back. */
  lemma DecimalRoundTrip(n: int)
    ensures DecimalValue(Decimal(n)) == n
  {
    if n < 0 {
      NegativeRoundTrip(-n);
    } else {
      var d := Digits(n);
      assert '0' <= d[0] <= '9';
      DigitsRoundTrip(n);
    }
  }

  /** Reading a printed negative integer gives it back. */
  lemma NegativeRoundTrip(m: nat)
    ensures DecimalValue("-" + Digits(m)) == -(m as int)
  {
    var s := "-" + Digits(m);
    assert s[0] == '-' && s[1..] == Digits(m);
    DigitsRoundTrip(m);
  }

  /** The index of the first `x` in `s`, or |s|. */
  function FirstX(s: string): (k: nat)
    ensures k <= |s| && 'x' !in s[..k] && (k < |s| ==> s[k] == 'x')
  {
    if s == [] then 0
    else if s[0] == 'x' then 0
    else
      assert s[1..][..FirstX(s[1..])] == s[1..FirstX(s[1..]) + 1];
      FirstX(s[1..]) + 1
  }

  /** Reads a rendered entry back: the quantity up to the first `x`, the name after `x `. */
  function ParseRendered(s: string): Entry
  {
    var k := FirstX(s);
    if k + 2 <= |s| then Entry(s[k + 2..], DecimalValue(s[..k])) else Entry("", DecimalValue(s))
  }

  /** The first `x` of a string that starts with an `x`-free part is right after that part. */
  lemma {:induction false} FirstXAfter(d: string, rest: string)
    requires 'x' !in d && rest != [] && rest[0] == 'x'
    ensures FirstX(d + rest) == |d|
  {
    if d != [] {
      assert (d + rest)[0] == d[0] && (d + rest)[1..] == d[1..] + rest;
      FirstXAfter(d[1..], rest);
    }
  }

  /** Every rendered entry reads back as the entry it came from. */
  lemma RenderRoundTrip(e: Entry)
    ensures ParseRendered(Render(e)) == e
  {
    var d := Decimal(e.quantity);
    var s := Render(e);
    assert s == d + ("x " + e.name);
    FirstXAfter(d, "x " + e.name);
    assert s[..|d|] == d;
    assert s[|d| + 2..] == e.name;
    DecimalRoundTrip(e.quantity);
  }

  // ---------------------------------------------------------------------
  // What `try_to_use_parts` draws
  // ---------------------------------------------------------------------

  /** How many parts one key draws: its count, or everything available when that is less. */
  function Taken(quantity: int, available: nat): (t: nat)
    ensures quantity <= 0 ==> t == 0
    ensures 0 < quantity <= available ==> t == quantity
    ensures available < quantity ==> t == available
  {
    if quantity <= 0 then 0 else if quantity <= available then quantity else available
  }

  /** `t` copies of the part named `n`. */
  function Copies(n: string, t: nat): multiset<Part>
  {
    match PartNamed(n)
    case None => multiset{}
    case Some(p) => multiset{}[p := t]
  }

  /** The parts the keys draw from `s`, each key drawing only parts of its own name. */
  function Drawn(entries: seq<Entry>, s: seq<Part>): multiset<Part>
  {
    if entries == [] then multiset{}
    else
      var e := entries[|entries| - 1];
      Drawn(entries[..|entries| - 1], s) + Copies(e.name, Taken(e.quantity, Available(s, e.name)))
  }

  /** How many parts a key asks for: its count when positive, otherwise none. */
  function Demanded(e: Entry): nat
  {
    if e.quantity <= 0 then 0 else e.quantity
  }

  /** The parts the keys ask for: each positive count of its name. */
  function Demand(entries: seq<Entry>): multiset<Part>
  {
    if entries == [] then multiset{}
    else
      var e := entries[|entries| - 1];
      Demand(entries[..|entries| - 1]) + Copies(e.name, Demanded(e))
  }

  /** Every key's count is covered by the parts of its name in `s`. */
  predicate Enough(entries: seq<Entry>, s: seq<Part>)
  {
    forall k :: 0 <= k < |entries| ==> entries[k].quantity <= Available(s, entries[k].name)
  }

  /** What is left of one key once it has drawn: nothing when its count reached 0. */
  function Left(e: Entry, s: seq<Part>): seq<Entry>
  {
    var c := e.quantity - Taken(e.quantity, Available(s, e.name));
    if c == 0 then [] else [Entry(e.name, c)]
  }

  /**
   * The list left once the keys have drawn from `s`, in order: each key in
   * turn removes the first parts of its name, as many as it takes.
   */
  function LeftOver(entries: seq<Entry>, s: seq<Part>): seq<Part>
  {
    if entries == [] then s
    else
      var e := entries[|entries| - 1];
      RemoveFirsts(LeftOver(entries[..|entries| - 1], s), e.name, Taken(e.quantity, Available(s, e.name)))
  }

  /** The parts the keys draw from `s`, in the order they are drawn. */
  function DrawnSeq(entries: seq<Entry>, s: seq<Part>): seq<Part>
  {
    if entries == [] then []
    else
      var e := entries[|entries| - 1];
      DrawnSeq(entries[..|entries| - 1], s) + CopiesSeq(e.name, Taken(e.quantity, Available(s, e.name)))
  }

  /**
   * Drawing for key `name` after `t` parts: the list is `k0` without its
   * first `t` parts of that name, and `used` gained `t` of them at its end.
   */
  ghost predicate KeyInOrder(k0: seq<Part>, name: string, t: nat, now: seq<Part>, used0: seq<Part>, used: seq<Part>)
  {
    now == RemoveFirsts(k0, name, t) && used == used0 + CopiesSeq(name, t)
  }

  /** Drawing the first part named `name` once more. */
  lemma KeyInOrderStep(k0: seq<Part>, name: string, t: nat, now: seq<Part>, used0: seq<Part>, used: seq<Part>)
    requires KeyInOrder(k0, name, t, now, used0, used) && PartNamed(name).Some?
    ensures KeyInOrder(k0, name, t + 1, RemoveFirst(now, name), used0, used + [PartNamed(name).value])
  {
    var v := PartNamed(name).value;
    assert used0 + CopiesSeq(name, t) + [v] == used0 + (CopiesSeq(name, t) + [v]);
  }

  /** Before key `i`: the list and the drawn parts are, in order, what the keys before it leave and draw. */
  ghost predicate InOrder(entries: seq<Entry>, s: seq<Part>, i: int, now: seq<Part>, used: seq<Part>)
  {
    0 <= i <= |entries| && now == LeftOver(entries[..i], s) && used == DrawnSeq(entries[..i], s)
  }

  /** Key `i` has drawn what it takes, each part the first of its name: the order holds up to it. */
  lemma InOrderStep(entries: seq<Entry>, s: seq<Part>, i: int, t: nat, k0: seq<Part>, now: seq<Part>,
                    used0: seq<Part>, used: seq<Part>)
    requires 0 <= i < |entries| && InOrder(entries, s, i, k0, used0)
    requires KeyInOrder(k0, entries[i].name, t, now, used0, used)
    requires DrawingParts(Drawn(entries[..i], s), entries[i], s, t, now, used)
    requires entries[i].quantity - t <= 0 || Available(now, entries[i].name) == 0
    ensures InOrder(entries, s, i + 1, now, used)
  {
    KeyDone(Drawn(entries[..i], s), entries[i], s, t, now, used);
    OrderStep(entries, s, i);
  }

  /** Key `i` draws after the keys before it. */
  lemma OrderStep(entries: seq<Entry>, s: seq<Part>, i: int)
    requires 0 <= i < |entries|
    ensures var e := entries[i];
            var t := Taken(e.quantity, Available(s, e.name));
            LeftOver(entries[..i + 1], s) == RemoveFirsts(LeftOver(entries[..i], s), e.name, t) &&
            DrawnSeq(entries[..i + 1], s) == DrawnSeq(entries[..i], s) + CopiesSeq(e.name, t)
  {
    var pre := entries[..i + 1];
    assert |pre| - 1 == i && pre[..i] == entries[..i] && pre[i] == entries[i];
  }

  /** The keys and counts left in the collection after drawing from `s`, in key order. */
  function Remaining(entries: seq<Entry>, s: seq<Part>): seq<Entry>
  {
    if entries == [] then []
    else
      var n := |entries| - 1;
      Remaining(entries[..n], s) + Left(entries[n], s)
  }

  /** Drawing adds no key: every key left is one of the keys drawn for. */
  lemma {:induction false} RemainingNames(entries: seq<Entry>, s: seq<Part>)
    ensures NameSet(Remaining(entries, s)) <= NameSet(entries)
  {
    if entries != [] {
      var n := |entries| - 1;
      var prefix := Remaining(entries[..n], s);
      RemainingNames(entries[..n], s);
      forall x | x in Remaining(entries, s)
        ensures x.name in NameSet(entries)
      {
        if x in prefix {
          assert x.name in NameSet(entries[..n]);
          var y :| y in entries[..n] && y.name == x.name;
          assert y in entries;
        } else {
          assert x.name == entries[n].name && entries[n] in entries;
        }
      }
    }
  }

  /** When every count is covered, the keys draw exactly what they ask for. */
  lemma {:induction false} DrawnWhenEnough(entries: seq<Entry>, s: seq<Part>)
    requires Enough(entries, s)
    ensures Drawn(entries, s) == Demand(entries)
  {
    if entries != [] {
      var n := |entries| - 1;
      assert Enough(entries[..n], s) by {
        forall k | 0 <= k < n
          ensures entries[..n][k].quantity <= Available(s, entries[..n][k].name)
        {
          assert entries[..n][k] == entries[k];
        }
      }
      DrawnWhenEnough(entries[..n], s);
    }
  }

  /** When every count is covered, only keys that asked for nothing or less remain. */
  lemma {:induction false} RemainingWhenEnough(entries: seq<Entry>, s: seq<Part>)
    requires Enough(entries, s)
    ensures forall k :: 0 <= k < |Remaining(entries, s)| ==> Remaining(entries, s)[k].quantity < 0
  {
    if entries != [] {
      var n := |entries| - 1;
      assert Enough(entries[..n], s) by {
        forall k | 0 <= k < n
          ensures entries[..n][k].quantity <= Available(s, entries[..n][k].name)
        {
          assert entries[..n][k] == entries[k];
        }
      }
      RemainingWhenEnough(entries[..n], s);
    }
  }

  /** A key draws nothing of a name it does not carry. */
  lemma {:induction false} DrawnAvoids(entries: seq<Entry>, s: seq<Part>, n: string)
    requires n !in NameSet(entries) && PartNamed(n).Some?
    ensures Drawn(entries, s)[PartNamed(n).value] == 0
  {
    if entries != [] {
      var last := |entries| - 1;
      assert entries[last] in entries;
      assert NameSet(entries[..last]) <= NameSet(entries) by {
        forall e | e in entries[..last] ensures e in entries { }
      }
      DrawnAvoids(entries[..last], s, n);
    }
  }

  // ---------------------------------------------------------------------
  // try_to_use_parts
  // ---------------------------------------------------------------------

  /** `UsePartResult`: success, or the (mutated) collection of what is missing. */
  datatype UsePartResult = Used | Missing(missingParts: PartNameCollection)

  /** The count of key `n`. */
  function Quantity(entries: seq<Entry>, n: string): int
    requires 0 <= IndexOfName(entries, n)
  {
    entries[IndexOfName(entries, n)].quantity
  }

  /** The collection without key `n`. */
  function Without(entries: seq<Entry>, n: string): seq<Entry>
    requires 0 <= IndexOfName(entries, n)
  {
    var at := IndexOfName(entries, n);
    entries[..at] + entries[at + 1..]
  }

  /** Before key `i`: the keys before it are settled, the later ones untouched. */
  ghost predicate SettledEntries(entries: seq<Entry>, s: seq<Part>, i: int, current: seq<Entry>)
  {
    0 <= i <= |entries| && current == Remaining(entries[..i], s) + entries[i..]
  }

  /** Whether the keys before `i` are covered by `s`. */
  ghost predicate CoveredUpTo(entries: seq<Entry>, s: seq<Part>, i: int)
  {
    0 <= i <= |entries| && Enough(entries[..i], s)
  }

  /** Before key `i`: the keys before it drew `used` out of `s`, leaving `now`. */
  ghost predicate DrawnBefore(entries: seq<Entry>, s: seq<Part>, i: int, now: seq<Part>, used: seq<Part>)
  {
    0 <= i <= |entries| &&
    multiset(now) + multiset(used) == multiset(s) && multiset(used) == Drawn(entries[..i], s)
  }

  /**
   * Drawing for key `e` after `t` parts: the collection is `c0` with the
   * entry of `e`, at `at`, decremented `t` times.
   */
  ghost predicate DrawingEntries(c0: seq<Entry>, at: int, e: Entry, t: nat, current: seq<Entry>)
  {
    0 <= at < |c0| && current == c0[at := Entry(e.name, e.quantity - t)] && IndexOfName(current, e.name) == at
  }

  /**
   * Drawing for key `e` after `t` parts: `used` holds what the earlier keys
   * drew (`before`) and `t` parts of its name, and with `now` it makes up `s`.
   */
  ghost predicate DrawingParts(before: multiset<Part>, e: Entry, s: seq<Part>, t: nat, now: seq<Part>, used: seq<Part>)
  {
    multiset(now) + multiset(used) == multiset(s) &&
    multiset(used) == before + Copies(e.name, t) &&
    t <= Available(s, e.name) && Available(now, e.name) == Available(s, e.name) - t &&
    t <= Demanded(e)
  }

  lemma DrawnStep(entries: seq<Entry>, s: seq<Part>, i: int)
    requires 0 <= i < |entries|
    ensures Drawn(entries[..i + 1], s) ==
            Drawn(entries[..i], s) + Copies(entries[i].name, Taken(entries[i].quantity, Available(s, entries[i].name)))
  {
    var pre := entries[..i + 1];
    assert |pre| - 1 == i && pre[..i] == entries[..i] && pre[i] == entries[i];
  }

  lemma RemainingStep(entries: seq<Entry>, s: seq<Part>, i: int)
    requires 0 <= i < |entries|
    ensures Remaining(entries[..i + 1], s) == Remaining(entries[..i], s) + Left(entries[i], s)
  {
    var pre := entries[..i + 1];
    assert |pre| - 1 == i && pre[..i] == entries[..i] && pre[i] == entries[i];
  }

  lemma EnoughStep(entries: seq<Entry>, s: seq<Part>, i: int)
    requires 0 <= i < |entries|
    ensures Enough(entries[..i + 1], s) <==> Enough(entries[..i], s) && entries[i].quantity <= Available(s, entries[i].name)
  {
    var pre := entries[..i + 1];
    assert forall k :: 0 <= k <= i ==> pre[k] == entries[k];
    assert forall k :: 0 <= k < i ==> entries[..i][k] == entries[k];
  }

  /** With distinct keys, key `i` is not among the keys before it. */
  lemma FreshKey(entries: seq<Entry>, i: int)
    requires DistinctNames(entries) && 0 <= i < |entries|
    ensures entries[i].name !in NameSet(entries[..i])
  {
    forall x | x in entries[..i]
      ensures x.name != entries[i].name
    {
      var k :| 0 <= k < i && entries[..i][k] == x;
      assert entries[k] == x;
    }
  }

  /** Starting on key `i`: its entry stands right after the settled keys. */
  lemma EnterEntries(entries: seq<Entry>, s: seq<Part>, i: int, current: seq<Entry>)
    requires 0 <= i < |entries| && entries[i].name !in NameSet(entries[..i])
    requires SettledEntries(entries, s, i, current)
    ensures DrawingEntries(current, |Remaining(entries[..i], s)|, entries[i], 0, current)
  {
    var e := entries[i];
    var prefix := Remaining(entries[..i], s);
    RemainingNames(entries[..i], s);
    assert entries[i..] == [e] + entries[i + 1..];
    assert current == prefix + [e] + entries[i + 1..];
    assert Entry(e.name, e.quantity - 0) == e;
    IndexOfNameAt(prefix, e, entries[i + 1..]);
  }

  /** Starting on key `i`: nothing of its name has been drawn yet. */
  lemma EnterParts(entries: seq<Entry>, s: seq<Part>, i: int, now: seq<Part>, used: seq<Part>)
    requires 0 <= i < |entries| && entries[i].name !in NameSet(entries[..i])
    requires DrawnBefore(entries, s, i, now, used)
    ensures DrawingParts(Drawn(entries[..i], s), entries[i], s, 0, now, used)
  {
    var e := entries[i];
    match PartNamed(e.name)
    case None =>
    case Some(p) =>
      assert Copies(e.name, 0) == multiset{};
      DrawnAvoids(entries[..i], s, e.name);
  }

  /** Drawing the part at `k`, which is named like key `e`. */
  lemma DrawOneParts(before: multiset<Part>, e: Entry, s: seq<Part>, t: nat, now: seq<Part>, used: seq<Part>, k: int)
    requires DrawingParts(before, e, s, t, now, used)
    requires e.quantity - t > 0
    requires 0 <= k < |now| && now[k].Name() == e.name
    ensures DrawingParts(before, e, s, t + 1, now[..k] + now[k + 1..], used + [now[k]])
  {
    var p := now[k];
    assert PartNamed(e.name) == Some(p);
    RemoveAt(now, k);
    assert multiset(used + [p]) == multiset(used) + multiset{p};
    assert Copies(e.name, t + 1) == Copies(e.name, t) + multiset{p};
  }

  /** Decrementing key `e`. */
  lemma DrawOneEntries(c0: seq<Entry>, at: int, e: Entry, t: nat, current: seq<Entry>)
    requires DrawingEntries(c0, at, e, t, current)
    ensures DrawingEntries(c0, at, e, t + 1, current[at := Entry(e.name, current[at].quantity - 1)])
  {
    IndexOfNameUpdate(current, at, Entry(e.name, e.quantity - (t + 1)));
  }

  /** Key `e` stops drawing when its count is used up or no part of its name is left. */
  lemma KeyDone(before: multiset<Part>, e: Entry, s: seq<Part>, t: nat, now: seq<Part>, used: seq<Part>)
    requires DrawingParts(before, e, s, t, now, used)
    requires e.quantity - t <= 0 || Available(now, e.name) == 0
    ensures t == Taken(e.quantity, Available(s, e.name))
  {
  }

  /** Key `i` has drawn: the collection is the settled keys, its own entry, and the untouched ones. */
  lemma LeftShape(entries: seq<Entry>, s: seq<Part>, i: int, t: nat, c0: seq<Entry>, current: seq<Entry>)
    requires 0 <= i < |entries| && SettledEntries(entries, s, i, c0)
    requires DrawingEntries(c0, |Remaining(entries[..i], s)|, entries[i], t, current)
    ensures current == Remaining(entries[..i], s) + [Entry(entries[i].name, entries[i].quantity - t)] + entries[i + 1..]
    ensures Quantity(current, entries[i].name) == entries[i].quantity - t
  {
    assert entries[i..] == [entries[i]] + entries[i + 1..];
  }

  /** Key `i` has drawn what it takes: it is settled, and deleted when its count is 0. */
  lemma LeaveEntries(entries: seq<Entry>, s: seq<Part>, i: int, t: nat, c0: seq<Entry>, current: seq<Entry>)
    requires 0 <= i < |entries| && SettledEntries(entries, s, i, c0)
    requires DrawingEntries(c0, |Remaining(entries[..i], s)|, entries[i], t, current)
    requires t == Taken(entries[i].quantity, Available(s, entries[i].name))
    ensures Quantity(current, entries[i].name) == entries[i].quantity - t
    ensures SettledEntries(entries, s, i + 1,
                           if entries[i].quantity - t == 0 then Without(current, entries[i].name) else current)
  {
    LeftShape(entries, s, i, t, c0, current);
    if entries[i].quantity - t == 0 {
      LeaveDeleted(entries, s, i, t, current);
    } else {
      LeaveKept(entries, s, i, t, current);
    }
  }

  /** A key whose count reached 0 is deleted, and what is left is settled up to it. */
  lemma LeaveDeleted(entries: seq<Entry>, s: seq<Part>, i: int, t: nat, current: seq<Entry>)
    requires 0 <= i < |entries| && t == Taken(entries[i].quantity, Available(s, entries[i].name))
    requires entries[i].quantity - t == 0
    requires current == Remaining(entries[..i], s) + [Entry(entries[i].name, 0)] + entries[i + 1..]
    requires IndexOfName(current, entries[i].name) == |Remaining(entries[..i], s)|
    ensures SettledEntries(entries, s, i + 1, Without(current, entries[i].name))
  {
    var prefix := Remaining(entries[..i], s);
    var at := |prefix|;
    RemainingStep(entries, s, i);
    assert Left(entries[i], s) == [];
    assert Remaining(entries[..i + 1], s) == prefix + [] == prefix;
    assert current[..at] == prefix && current[at + 1..] == entries[i + 1..];
    assert Without(current, entries[i].name) == prefix + entries[i + 1..];
  }

  /** A key whose count did not reach 0 stays, and the collection is settled up to it. */
  lemma LeaveKept(entries: seq<Entry>, s: seq<Part>, i: int, t: nat, current: seq<Entry>)
    requires 0 <= i < |entries| && t == Taken(entries[i].quantity, Available(s, entries[i].name))
    requires entries[i].quantity - t != 0
    requires current == Remaining(entries[..i], s) + [Entry(entries[i].name, entries[i].quantity - t)] + entries[i + 1..]
    ensures SettledEntries(entries, s, i + 1, current)
  {
    RemainingStep(entries, s, i);
    assert Left(entries[i], s) == [Entry(entries[i].name, entries[i].quantity - t)];
  }

  /** Key `i` has drawn what it takes: the parts it drew join the earlier keys' draw. */
  lemma LeaveParts(entries: seq<Entry>, s: seq<Part>, i: int, t: nat, now: seq<Part>, used: seq<Part>)
    requires 0 <= i < |entries|
    requires DrawingParts(Drawn(entries[..i], s), entries[i], s, t, now, used)
    requires t == Taken(entries[i].quantity, Available(s, entries[i].name))
    ensures DrawnBefore(entries, s, i + 1, now, used)
  {
    DrawnStep(entries, s, i);
  }

  /** Leaving key `i`: the state before key `i + 1`, whichever way its drawing stopped. */
  lemma LeaveKey(entries: seq<Entry>, s: seq<Part>, i: int, t: nat, c0: seq<Entry>, current: seq<Entry>,
                 now: seq<Part>, used: seq<Part>, success: bool)
    requires 0 <= i < |entries| && SettledEntries(entries, s, i, c0)
    requires DrawingEntries(c0, |Remaining(entries[..i], s)|, entries[i], t, current)
    requires DrawingParts(Drawn(entries[..i], s), entries[i], s, t, now, used)
    requires entries[i].quantity - t <= 0 || Available(now, entries[i].name) == 0
    requires success == Enough(entries[..i], s)
    ensures 0 <= IndexOfName(current, entries[i].name)
    ensures var q := Quantity(current, entries[i].name);
            SettledEntries(entries, s, i + 1, if q == 0 then Without(current, entries[i].name) else current) &&
            DrawnBefore(entries, s, i + 1, now, used) &&
            (success && q <= 0) == Enough(entries[..i + 1], s)
  {
    KeyDone(Drawn(entries[..i], s), entries[i], s, t, now, used);
    LeaveEntries(entries, s, i, t, c0, current);
    LeaveParts(entries, s, i, t, now, used);
    EnoughStep(entries, s, i);
  }

  /**
   * The inner loop of `try_to_use_parts` for key `e`: while its count is
   * positive and a part of its name is left, the first such part moves from
   * the list to the end of `used` and the count drops by one.
   */
  method DrawKey(parts: PartList, required: PartNameCollection, name: string,
                 ghost c0: seq<Entry>, ghost at: int, ghost e: Entry,
                 ghost before: multiset<Part>, ghost s: seq<Part>, used0: seq<Part>)
    returns (used: seq<Part>, found: bool, ghost t: nat)
    requires name == e.name
    requires DrawingEntries(c0, at, e, 0, required.entries)
    requires DrawingParts(before, e, s, 0, parts.items, used0)
    modifies parts, required
    ensures DrawingEntries(c0, at, e, t, required.entries)
    ensures DrawingParts(before, e, s, t, parts.items, used)
    ensures found <==> e.quantity - t <= 0
    ensures !found ==> Available(parts.items, name) == 0
    ensures KeyInOrder(old(parts.items), name, t, parts.items, used0, used)
  {
    used := used0;
    t := 0;
    while Quantity(required.entries, name) > 0
      invariant DrawingEntries(c0, at, e, t, required.entries)
      invariant DrawingParts(before, e, s, t, parts.items, used)
      invariant KeyInOrder(old(parts.items), name, t, parts.items, used0, used)
    {
      var index := FindIndex(parts.items, name);
      if index == -1 {
        return used, false, t;
      }
      ghost var items, used1 := parts.items, used;
      SpliceFirst(items, name);
      NamedByName(items[index]);
      used := DrawOne(parts, required, name, index, c0, at, e, before, s, t, used);
      KeyInOrderStep(old(parts.items), name, t, items, used0, used1);
      t := t + 1;
    }
    found := true;
  }

  /** One pass of the inner loop: the part at `index` moves to the end of `used` and the count of `name` drops by one. */
  method DrawOne(parts: PartList, required: PartNameCollection, name: string, index: int,
                 ghost c0: seq<Entry>, ghost at: int, ghost e: Entry,
                 ghost before: multiset<Part>, ghost s: seq<Part>, ghost t: nat, used0: seq<Part>)
    returns (used: seq<Part>)
    requires name == e.name && e.quantity - t > 0
    requires 0 <= index < |parts.items| && parts.items[index].Name() == name
    requires DrawingEntries(c0, at, e, t, required.entries)
    requires DrawingParts(before, e, s, t, parts.items, used0)
    modifies parts, required
    ensures DrawingEntries(c0, at, e, t + 1, required.entries)
    ensures DrawingParts(before, e, s, t + 1, parts.items, used)
    ensures parts.items == old(parts.items)[..index] + old(parts.items)[index + 1..]
    ensures used == used0 + [old(parts.items)[index]]
  {
    DrawOneEntries(c0, at, e, t, required.entries);
    DrawOneParts(before, e, s, t, parts.items, used0, index);
    var k := IndexOfName(required.entries, name);
    assert parts as object != required;
    required.entries := required.entries[k := Entry(name, required.entries[k].quantity - 1)];
    used := used0 + [parts.items[index]];
    parts.items := parts.items[..index] + parts.items[index + 1..];
  }

  /** After the last key: the collection is what is left, and on success exactly the demand was drawn. */
  lemma AllKeysSettled(entries: seq<Entry>, s: seq<Part>, i: int, current: seq<Entry>, now: seq<Part>,
                       used: seq<Part>, success: bool)
    requires i == |entries|
    requires SettledEntries(entries, s, i, current)
    requires DrawnBefore(entries, s, i, now, used)
    requires success == CoveredUpTo(entries, s, i)
    ensures current == Remaining(entries, s) && success == Enough(entries, s)
    ensures multiset(now) + multiset(used) == multiset(s)
    ensures success ==> multiset(now) + Demand(entries) == multiset(s)
  {
    assert entries[..|entries|] == entries;
    if success {
      DrawnWhenEnough(entries, s);
    }
  }

  /**
   * The inner loop for key `i`, seen from the outer loop: the key draws
   * what it takes, first parts of its name first, and `found` tells whether
   * its count was met.
   */
  method DrawForKey(parts: PartList, required: PartNameCollection, name: string,
                    ghost entries: seq<Entry>, ghost s: seq<Part>, ghost i: int, used0: seq<Part>,
                    ghost success0: bool)
    returns (used: seq<Part>, found: bool)
    requires DistinctNames(entries) && 0 <= i < |entries| && name == entries[i].name
    requires SettledEntries(entries, s, i, required.entries)
    requires DrawnBefore(entries, s, i, parts.items, used0)
    requires success0 == CoveredUpTo(entries, s, i)
    requires InOrder(entries, s, i, parts.items, used0)
    modifies parts, required
    ensures 0 <= IndexOfName(required.entries, name)
    ensures var q := Quantity(required.entries, name);
            SettledEntries(entries, s, i + 1, if q == 0 then Without(required.entries, name) else required.entries) &&
            (success0 && found) == CoveredUpTo(entries, s, i + 1)
    ensures DrawnBefore(entries, s, i + 1, parts.items, used)
    ensures InOrder(entries, s, i + 1, parts.items, used)
  {
    FreshKey(entries, i);
    EnterEntries(entries, s, i, required.entries);
    EnterParts(entries, s, i, parts.items, used0);
    ghost var c0, k0 := required.entries, parts.items;
    ghost var t;
    used, found, t := DrawKey(parts, required, name, c0, |Remaining(entries[..i], s)|, entries[i],
                              Drawn(entries[..i], s), s, used0);
    InOrderStep(entries, s, i, t, k0, parts.items, used0, used);
    LeaveKey(entries, s, i, t, c0, required.entries, parts.items, used, success0);
  }

  /**
   * One round of the outer loop of `try_to_use_parts`: key `i` draws what
   * it takes, is deleted when its count reached 0, and the success flag
   * drops when it is still short.
   */
  method UseKey(parts: PartList, required: PartNameCollection, name: string,
                ghost entries: seq<Entry>, ghost s: seq<Part>, ghost i: int, used0: seq<Part>, success0: bool)
    returns (used: seq<Part>, success: bool)
    requires DistinctNames(entries) && 0 <= i < |entries| && name == entries[i].name
    requires SettledEntries(entries, s, i, required.entries)
    requires DrawnBefore(entries, s, i, parts.items, used0)
    requires success0 == CoveredUpTo(entries, s, i)
    requires InOrder(entries, s, i, parts.items, used0)
    modifies parts, required
    ensures SettledEntries(entries, s, i + 1, required.entries)
    ensures DrawnBefore(entries, s, i + 1, parts.items, used)
    ensures success == CoveredUpTo(entries, s, i + 1)
    ensures InOrder(entries, s, i + 1, parts.items, used)
  {
    var found;
    used, found := DrawForKey(parts, required, name, entries, s, i, used0, success0);
    success := success0;
    if !found {
      success := false;
    }
    if Quantity(required.entries, name) == 0 {
      assert parts as object != required;
      required.entries := Without(required.entries, name);
    }
  }

  /** The outer loop of `try_to_use_parts`: every key in turn draws what it takes. */
  method UseKeys(parts: PartList, required: PartNameCollection) returns (used: seq<Part>, success: bool)
    requires required.Valid()
    modifies parts, required
    ensures SettledEntries(old(required.entries), old(parts.items), |old(required.entries)|, required.entries)
    ensures DrawnBefore(old(required.entries), old(parts.items), |old(required.entries)|, parts.items, used)
    ensures success == CoveredUpTo(old(required.entries), old(parts.items), |old(required.entries)|)
    ensures parts.items == LeftOver(old(required.entries), old(parts.items))
    ensures used == DrawnSeq(old(required.entries), old(parts.items))
  {
    ghost var entries := required.entries;
    ghost var s := parts.items;
    used := [];
    var names := Keys(required.entries);
    success := true;
    var i := 0;
    assert entries[..0] == [] && entries[0..] == entries;
    while i < |names|
      invariant names == Keys(entries)
      invariant SettledEntries(entries, s, i, required.entries)
      invariant DrawnBefore(entries, s, i, parts.items, used)
      invariant success == CoveredUpTo(entries, s, i)
      invariant InOrder(entries, s, i, parts.items, used)
    {
      used, success := UseKey(parts, required, names[i], entries, s, i, used, success);
      i := i + 1;
    }
    assert entries[..i] == entries;
  }

  /**
   * `try_to_use_parts`: for each key in order, draws parts of that name
   * from `parts` until its count reaches 0 or none is left, deleting keys
   * whose count reached 0. A shortfall on one key does not stop the later
   * keys. On success the drawn parts are gone from `parts`; otherwise they
   * are pushed back and the collection itself is returned.
   */
  method TryToUseParts(parts: PartList, required: PartNameCollection) returns (r: UsePartResult)
    requires required.Valid()
    modifies parts, required
    ensures var entries := old(required.entries);
            var s := old(parts.items);
            (r.Used? <==> Enough(entries, s)) &&
            required.entries == Remaining(entries, s) &&
            (r.Used? ==> multiset(parts.items) + Demand(entries) == multiset(s)) &&
            (r.Missing? ==> r.missingParts == required && multiset(parts.items) == multiset(s)) &&
            (r.Used? ==> parts.items == LeftOver(entries, s)) &&
            (r.Missing? ==> parts.items == LeftOver(entries, s) + DrawnSeq(entries, s))
  {
    ghost var entries := required.entries;
    ghost var s := parts.items;
    var used, success := UseKeys(parts, required);
    AllKeysSettled(entries, s, |entries|, required.entries, parts.items, used, success);
    if !success {
      assert parts as object != required;
      parts.items := parts.items + used;
      return Missing(required);
    }
    return Used;
  }

  // ---------------------------------------------------------------------
  // Operators, engines and machines
  // ---------------------------------------------------------------------

  /** An engine under construction; `parts` is the array machines push their products into. */
  class Engine {
    const parts: PartList
    var complete: bool

    constructor ()
      ensures fresh(parts) && parts.items == [] && !complete
    {
      parts := new PartList([]);
      complete := false;
    }

    /** `use`: an engine works once it is complete. */
    function Use(): bool
      reads this
    {
      complete
    }
  }

  /** A person who can operate a machine and try out an item. */
  datatype Operator = Operator(name: string)
  {
    /** `interact`: what using the item reports. */
    function Interact(item: Engine): (r: bool)
      reads item
      ensures r <==> item.complete
    {
      item.Use()
    }
  }

  /** The four machine classes; they differ only in what they draw and what they make. */
  datatype MachineKind = IronGearWheelPress | PipeMaker | SteelWelder | EngineAssembler

  /** The collection a machine hands to `try_to_use_parts`, in key order. */
  function Recipe(kind: MachineKind): seq<Entry>
  {
    match kind
    case IronGearWheelPress => [Entry("Iron Plate", 2)]
    case PipeMaker => [Entry("Iron Plate", 1)]
    case SteelWelder => [Entry("Steel Plate", 1)]
    case EngineAssembler => [Entry("Steel Plate", 1), Entry("Iron Gear Wheel", 1), Entry("Pipe", 2)]
  }

  /** What a machine pushes onto the item once its parts are drawn; the assembler only consumes. */
  function Product(kind: MachineKind): seq<Part>
  {
    match kind
    case IronGearWheelPress => [IronGearWheel]
    case PipeMaker => [Pipe]
    case SteelWelder => [SteelPlate]
    case EngineAssembler => []
  }

  /** The parts a machine consumes: how many of each class. */
  function Needs(kind: MachineKind): multiset<Part>
  {
    match kind
    case IronGearWheelPress => multiset{}[IronPlate := 2]
    case PipeMaker => multiset{}[IronPlate := 1]
    case SteelWelder => multiset{}[SteelPlate := 1]
    case EngineAssembler => multiset{}[SteelPlate := 1] + multiset{}[IronGearWheel := 1] + multiset{}[Pipe := 2]
  }

  /** Whether `m` holds what a machine needs, counted part class by part class. */
  predicate Covers(kind: MachineKind, m: multiset<Part>)
  {
    match kind
    case IronGearWheelPress => m[IronPlate] >= 2
    case PipeMaker => m[IronPlate] >= 1
    case SteelWelder => m[SteelPlate] >= 1
    case EngineAssembler => m[SteelPlate] >= 1 && m[IronGearWheel] >= 1 && m[Pipe] >= 2
  }

  /** The needs of a machine are in `m` exactly when `m` covers them class by class. */
  lemma NeedsCovered(kind: MachineKind, m: multiset<Part>)
    ensures Needs(kind) <= m <==> Covers(kind, m)
  {
    if Covers(kind, m) {
      forall p: Part ensures Needs(kind)[p] <= m[p] {
        match p
        case IronPlate =>
        case IronGearWheel =>
        case SteelPlate =>
        case Pipe =>
      }
    }
  }

  /** A recipe names each part class at most once. */
  lemma RecipeDistinct(kind: MachineKind)
    ensures DistinctNames(Recipe(kind))
  {
  }

  /** One more key adds its own demand. */
  lemma DemandSnoc(entries: seq<Entry>, e: Entry)
    ensures Demand(entries + [e]) == Demand(entries) + Copies(e.name, Demanded(e))
  {
    assert (entries + [e])[..|entries|] == entries;
  }

  /** Copies of a part, asked for by the part's name. */
  lemma CopiesOf(p: Part, t: nat)
    ensures Copies(p.Name(), t) == multiset{}[p := t]
  {
    NamedByName(p);
  }

  /** A recipe asks for exactly the parts its machine needs. */
  lemma RecipeDemand(kind: MachineKind)
    ensures Demand(Recipe(kind)) == Needs(kind)
  {
    var r := Recipe(kind);
    match kind
    case IronGearWheelPress =>
      DemandSnoc([], r[0]);
      CopiesOf(IronPlate, 2);
      assert [] + [r[0]] == r;
    case PipeMaker =>
      DemandSnoc([], r[0]);
      CopiesOf(IronPlate, 1);
      assert [] + [r[0]] == r;
    case SteelWelder =>
      DemandSnoc([], r[0]);
      CopiesOf(SteelPlate, 1);
      assert [] + [r[0]] == r;
    case EngineAssembler =>
      DemandSnoc([], r[0]);
      DemandSnoc([r[0]], r[1]);
      DemandSnoc([r[0], r[1]], r[2]);
      CopiesOf(SteelPlate, 1);
      CopiesOf(IronGearWheel, 1);
      CopiesOf(Pipe, 2);
      assert [] + [r[0]] == [r[0]] && [r[0]] + [r[1]] == [r[0], r[1]] && [r[0], r[1]] + [r[2]] == r;
  }

  /** A recipe is covered by a list exactly when the machine's needs are in the list. */
  lemma RecipeEnough(kind: MachineKind, s: seq<Part>)
    ensures Enough(Recipe(kind), s) <==> Needs(kind) <= multiset(s)
  {
    var r := Recipe(kind);
    var m := multiset(s);
    NeedsCovered(kind, m);
    assert Available(s, "Iron Plate") == m[IronPlate] && Available(s, "Steel Plate") == m[SteelPlate];
    assert Available(s, "Iron Gear Wheel") == m[IronGearWheel] && Available(s, "Pipe") == m[Pipe];
    assert Enough(r, s) <==> forall k :: 0 <= k < |r| ==> r[k].quantity <= Available(s, r[k].name);
    if kind == EngineAssembler {
      assert Enough(r, s) <==> r[0].quantity <= m[SteelPlate] && r[1].quantity <= m[IronGearWheel] &&
                                r[2].quantity <= m[Pipe];
    } else {
      assert Enough(r, s) <==> r[0].quantity <= Available(s, r[0].name);
    }
  }

  /** `try_to_use_parts` with the recipe of `kind` took `src` to `src'`, answering `ok`. */
  ghost predicate Drew(kind: MachineKind, ok: bool, src: seq<Part>, src': seq<Part>)
  {
    (ok <==> Needs(kind) <= multiset(src)) &&
    multiset(src') + (if ok then Needs(kind) else multiset{}) == multiset(src)
  }

  /**
   * What an operated machine of `kind` does to the shared list (`shared`
   * to `shared'`) and to the item's parts (`held` to `held'`): the
   * assembler draws from the item, every other machine from the shared list
   * and, when that succeeds, pushes its product onto the item.
   */
  ghost predicate Assembled(kind: MachineKind, ok: bool, shared: seq<Part>, shared': seq<Part>,
                            held: seq<Part>, held': seq<Part>)
  {
    if kind == EngineAssembler then Drew(kind, ok, held, held') && shared' == shared
    else Drew(kind, ok, shared, shared') && held' == held + (if ok then Product(kind) else [])
  }

  /** A machine on the line: it draws from the shared `parts` and may hold an operator. */
  class Machine {
    const kind: MachineKind
    const parts: PartList
    var operator: Option<Operator>

    constructor (kind: MachineKind, parts: PartList)
      ensures this.kind == kind && this.parts == parts && operator == None
    {
      this.kind := kind;
      this.parts := parts;
      operator := None;
    }

    /** `occupy`: the first operator stays; a later one is refused. */
    method Occupy(op: Operator) returns (ok: bool)
      modifies this
      ensures ok <==> old(operator).None?
      ensures operator == if ok then Some(op) else old(operator)
    {
      if operator.Some? {
        return false;
      }
      operator := Some(op);
      return true;
    }

    /**
     * `assemble`: without an operator nothing happens; otherwise the
     * machine's recipe is drawn with `try_to_use_parts` and, on success,
     * the product is pushed onto the item.
     */
    method Assemble(item: Engine) returns (ok: bool)
      requires item.parts != parts
      modifies parts, item.parts
      ensures operator.None? ==> !ok && parts.items == old(parts.items) && item.parts.items == old(item.parts.items)
      ensures operator.Some? ==>
                Assembled(kind, ok, old(parts.items), parts.items, old(item.parts.items), item.parts.items)
    {
      if operator.None? {
        return false;
      }
      var source := if kind == EngineAssembler then item.parts else parts;
      RecipeDistinct(kind);
      RecipeDemand(kind);
      RecipeEnough(kind, source.items);
      var required := new PartNameCollection(Recipe(kind));
      var result := TryToUseParts(source, required);
      if result.Missing? {
        return false;
      }
      if kind != EngineAssembler {
        item.parts.items := item.parts.items + Product(kind);
      }
      return true;
    }
  }

  // ---------------------------------------------------------------------
  // The engine factory
  // ---------------------------------------------------------------------

  /** The machines of the line, in order. */
  const Line: seq<MachineKind> := [IronGearWheelPress, PipeMaker, PipeMaker, SteelWelder, EngineAssembler]

  /**
   * How many machines of the line succeed on a shared list `s`: two iron
   * plates for the gear, one for each pipe, then a steel plate; the
   * assembler then always finds what it needs.
   */
  function Stages(s: seq<Part>): nat
  {
    var ironPlates := multiset(s)[IronPlate];
    if ironPlates < 2 then 0
    else if ironPlates < 3 then 1
    else if ironPlates < 4 then 2
    else if multiset(s)[SteelPlate] < 1 then 3
    else 5
  }

  /** What the engine holds after the first `k` machines succeeded. */
  function Built(k: nat): seq<Part>
  {
    if k == 0 then []
    else if k == 1 then [IronGearWheel]
    else if k == 2 then [IronGearWheel, Pipe]
    else if k == 3 then [IronGearWheel, Pipe, Pipe]
    else if k == 4 then [IronGearWheel, Pipe, Pipe, SteelPlate]
    else []
  }

  /** What the first `k` machines took from the shared list. */
  function Consumed(k: nat): multiset<Part>
  {
    if k == 0 then multiset{}
    else if k < 4 then multiset{}[IronPlate := k + 1]
    else multiset{}[IronPlate := 4] + multiset{}[SteelPlate := 1]
  }

  /** After `k` successes the engine holds what they built and the shared list lacks what they consumed. */
  ghost predicate Progress(s: seq<Part>, k: nat, shared: seq<Part>, held: seq<Part>)
  {
    held == Built(k) && multiset(shared) + Consumed(k) == multiset(s)
  }

  /** Each of the first four machines adds its needs to what the line consumed. */
  lemma ConsumedStep(i: int)
    requires 0 <= i < 4
    ensures Consumed(i + 1) == Consumed(i) + Needs(Line[i])
  {
    var c := Consumed(i) + Needs(Line[i]);
    forall p: Part ensures c[p] == Consumed(i + 1)[p] {
    }
  }

  /** Each of the first four machines adds its product to what the line built. */
  lemma BuiltStep(i: int)
    requires 0 <= i < 4
    ensures Built(i + 1) == Built(i) + Product(Line[i])
  {
  }

  /** The four parts the first four machines build are exactly what the assembler needs. */
  lemma BuiltForAssembler()
    ensures multiset(Built(4)) == Needs(EngineAssembler)
  {
    var m := multiset(Built(4));
    forall p: Part ensures m[p] == Needs(EngineAssembler)[p] {
    }
  }

  /** One of the first four machines, after `i` successes, on the shared list. */
  lemma DrawStage(s: seq<Part>, i: int, ok: bool, shared: seq<Part>, shared': seq<Part>)
    requires 0 <= i < 4 && i <= Stages(s)
    requires multiset(shared) + Consumed(i) == multiset(s)
    requires Drew(Line[i], ok, shared, shared')
    ensures ok <==> i < Stages(s)
    ensures ok ==> multiset(shared') + Consumed(i + 1) == multiset(s)
    ensures !ok ==> multiset(shared') + Consumed(i) == multiset(s)
  {
    var m := multiset(shared);
    NeedsCovered(Line[i], m);
    assert m[IronPlate] == multiset(s)[IronPlate] - Consumed(i)[IronPlate];
    assert m[SteelPlate] == multiset(s)[SteelPlate] - Consumed(i)[SteelPlate];
    if ok {
      ConsumedStep(i);
      assert multiset(shared') + Needs(Line[i]) == m;
    }
  }

  /** The assembler, handed the four built parts, uses them all up. */
  lemma AssembleStage(ok: bool, held: seq<Part>, held': seq<Part>)
    requires held == Built(4) && Drew(EngineAssembler, ok, held, held')
    ensures ok && held' == []
  {
    BuiltForAssembler();
    assert multiset(held') + Needs(EngineAssembler) == multiset(held);
    assert |held'| == |multiset(held')| == 0;
  }

  /** Machine `i` of the line, after `i` successes: it succeeds exactly when the line gets past it. */
  lemma StageStep(s: seq<Part>, i: int, ok: bool, shared: seq<Part>, shared': seq<Part>,
                  held: seq<Part>, held': seq<Part>)
    requires 0 <= i < |Line| && i <= Stages(s)
    requires Progress(s, i, shared, held)
    requires Assembled(Line[i], ok, shared, shared', held, held')
    ensures ok <==> i < Stages(s)
    ensures ok ==> Progress(s, i + 1, shared', held')
    ensures !ok ==> Progress(s, i, shared', held')
  {
    if i < 4 {
      DrawStage(s, i, ok, shared, shared');
      BuiltStep(i);
    } else {
      AssembleStage(ok, held, held');
    }
  }

  /** The whole line succeeds exactly when the list holds four iron plates and a steel plate. */
  lemma LineCompletes(s: seq<Part>)
    ensures Stages(s) == |Line| <==> multiset(s)[IronPlate] >= 4 && multiset(s)[SteelPlate] >= 1
  {
  }

  /** `EngineFactory`: five machines in a line, all drawing from one shared list. */
  class EngineFactory {
    const assembly: seq<Machine>
    const parts: PartList

    /** The line is the five machines in order, all on the shared list, all operated. */
    ghost predicate Valid()
      reads this, assembly
    {
      |assembly| == |Line| &&
      forall k :: 0 <= k < |assembly| ==>
        assembly[k].kind == Line[k] && assembly[k].parts == parts && assembly[k].operator.Some?
    }

    /** The line gets its machines and machine `k` its operator "Operator k+1". */
    constructor ()
      ensures Valid() && fresh(parts) && parts.items == []
      ensures forall k :: 0 <= k < |assembly| ==> assembly[k].operator == Some(Operator("Operator " + Decimal(k + 1)))
    {
      var shared := new PartList([]);
      var press := new Machine(IronGearWheelPress, shared);
      var pipes := new Machine(PipeMaker, shared);
      var morePipes := new Machine(PipeMaker, shared);
      var welder := new Machine(SteelWelder, shared);
      var assembler := new Machine(EngineAssembler, shared);
      parts := shared;
      assembly := [press, pipes, morePipes, welder, assembler];
      new;
      var k := 0;
      while k < |assembly|
        invariant 0 <= k <= |assembly| == |Line| && parts.items == []
        invariant forall j :: 0 <= j < |assembly| ==> assembly[j].kind == Line[j] && assembly[j].parts == parts
        invariant forall j :: 0 <= j < k ==> assembly[j].operator == Some(Operator("Operator " + Decimal(j + 1)))
        invariant forall j :: k <= j < |assembly| ==> assembly[j].operator.None?
      {
        var occupied := assembly[k].Occupy(Operator("Operator " + Decimal(k + 1)));
        k := k + 1;
      }
    }

    /** `add_part`: the parts join the end of the shared list. */
    method AddPart(newParts: seq<Part>)
      requires Valid()
      modifies parts
      ensures Valid() && parts.items == old(parts.items) + newParts
    {
      parts.items := parts.items + newParts;
    }

    /** Machine `i` works on the engine, after the `i` machines before it succeeded. */
    method Stage(engine: Engine, i: int, ghost s: seq<Part>) returns (ok: bool)
      requires Valid() && 0 <= i < |Line| && i <= Stages(s)
      requires engine.parts != parts && Progress(s, i, parts.items, engine.parts.items)
      modifies parts, engine.parts
      ensures ok <==> i < Stages(s)
      ensures ok ==> Progress(s, i + 1, parts.items, engine.parts.items)
      ensures !ok ==> Progress(s, i, parts.items, engine.parts.items)
    {
      ghost var shared := parts.items;
      ghost var held := engine.parts.items;
      var machine := assembly[i];
      assert machine.kind == Line[i] && machine.parts == parts && machine.operator.Some?;
      ok := machine.Assemble(engine);
      StageStep(s, i, ok, shared, parts.items, held, engine.parts.items);
    }

    /**
     * `produce`: the machines assemble a fresh engine in order, stopping at
     * the first failure; the engine is complete only when all succeeded.
     */
    method Produce() returns (engine: Engine)
      requires Valid()
      modifies parts
      ensures Valid() && fresh(engine) && fresh(engine.parts)
      ensures engine.complete == (Stages(old(parts.items)) == |Line|)
      ensures Progress(old(parts.items), Stages(old(parts.items)), parts.items, engine.parts.items)
      ensures engine.complete <==>
                multiset(old(parts.items))[IronPlate] >= 4 && multiset(old(parts.items))[SteelPlate] >= 1
    {
      engine := new Engine();
      ghost var s := parts.items;
      LineCompletes(s);
      var i := 0;
      while i < |assembly|
        invariant 0 <= i <= |Line| && i <= Stages(s) && Valid()
        invariant fresh(engine) && fresh(engine.parts) && !engine.complete
        invariant Progress(s, i, parts.items, engine.parts.items)
      {
        var ok := Stage(engine, i, s);
        if !ok {
          return engine;
        }
        i := i + 1;
      }
      engine.complete := true;
    }
  }

  /**
   * The scenario of `main.ts`: a fresh factory given four iron plates and a
   * steel plate produces an engine that works.
   */
  method Demo() returns (success: bool)
    ensures success
  {
    var factory := new EngineFactory();
    var student := Operator("Chad Chaddington");
    factory.AddPart([IronPlate, IronPlate, IronPlate, SteelPlate, IronPlate]);
    var item := factory.Produce();
    success := student.Interact(item);
  }
}
