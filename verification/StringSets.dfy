/**
  The strings of a character class: a chained hash table that doubles when it is full.
  Strings of one character are kept in the character set instead.
 */
module StringSets {
  import opened Patterns
  import opened RangeTable
  import opened CharRanges
  import opened CaseFolding

  const TWO32: nat := 0x1_0000_0000

  function Pow2(n: nat): (r: nat)
    ensures r >= 1
  {
    if n == 0 then 1 else 2 * Pow2(n - 1)
  }

  /** A string with its hash. */
  datatype Str = Str(hash: nat, text: seq<nat>)

  function HashFrom(h: nat, text: seq<nat>): nat {
    if text == [] then h else (HashFrom(h, text[..|text| - 1]) * 263 + text[|text| - 1]) % TWO32
  }

  function HashOf(text: seq<nat>): (h: nat)
    ensures h < TWO32
  {
    HashFrom(1, text) * 0x61C88647 % TWO32
  }

  method StringHash(text: seq<nat>) returns (h: nat)
    ensures h == HashOf(text)
  {
    h := 1;
    var i := 0;
    while i < |text|
      invariant 0 <= i <= |text| && h == HashFrom(1, text[..i])
    {
      assert text[..i + 1][..i] == text[..i];
      h := (h * 263 + text[i]) % TWO32;
      i := i + 1;
    }
    assert text[..i] == text;
    h := h * 0x61C88647 % TWO32;
  }

  function Quotient(x: nat, y: nat): nat
    requires y >= 1
  {
    x / y
  }

  /** The chain of a string: the top bits of its hash. */
  function Bucket(hash: nat, bits: nat): nat
    requires bits <= 32
  {
    Quotient(hash, Pow2(32 - bits))
  }

  lemma {:induction false} Pow2Times(a: nat, b: nat)
    ensures Pow2(a + b) == Pow2(a) * Pow2(b)
  {
    if a > 0 {
      Pow2Times(a - 1, b);
      assert a + b - 1 == (a - 1) + b;
      TwiceProduct(Pow2(a - 1), Pow2(b));
    }
  }

  lemma TwiceProduct(x: nat, y: nat)
    ensures 2 * (x * y) == (2 * x) * y
  {
  }

  lemma Pow2Is32()
    ensures Pow2(32) == TWO32
  {
    assert Pow2(8) == 256;
    Pow2Times(8, 8);
    Pow2Times(16, 16);
  }

  lemma DivideBelow(x: nat, y: nat, z: nat)
    requires y > 0 && x < y * z
    ensures x / y < z
  {
    var q := x / y;
    assert x == y * q + x % y;
    if q >= z { Grows(y, z, q); }
  }

  lemma Grows(y: nat, a: nat, b: nat)
    requires a <= b
    ensures y * a <= y * b
  {
  }

  lemma BucketBelow(hash: nat, bits: nat)
    requires bits <= 32 && hash < TWO32
    ensures Bucket(hash, bits) < Pow2(bits)
  {
    Pow2Is32();
    Pow2Times(32 - bits, bits);
    DivideBelow(hash, Pow2(32 - bits), Pow2(bits));
  }

  // ----- the contents of a table -----

  type Chains = seq<seq<Str>>

  ghost function Elements(table: Chains): multiset<Str> {
    if table == [] then multiset{} else Elements(table[..|table| - 1]) + multiset(table[|table| - 1])
  }

  lemma {:induction false} ElementsUpdate(table: Chains, h: nat, chain: seq<Str>)
    requires h < |table|
    ensures Elements(table[h := chain]) + multiset(table[h]) == Elements(table) + multiset(chain)
  {
    var n := |table| - 1;
    var table' := table[h := chain];
    if h < n {
      ElementsUpdate(table[..n], h, chain);
      assert table'[..n] == table[..n][h := chain] && table'[n] == table[n];
      Shift(Elements(table'[..n]), Elements(table[..n]), multiset(table[h]), multiset(chain), multiset(table[n]));
    } else {
      assert table'[..n] == table[..n];
    }
  }

  lemma {:induction false} ElementsIn(table: Chains, p: Str)
    ensures p in Elements(table) <==> exists h :: 0 <= h < |table| && p in table[h]
  {
    if table != [] {
      var n := |table| - 1;
      ElementsIn(table[..n], p);
      assert p in multiset(table[n]) <==> p in table[n];
      assert forall h :: 0 <= h < n ==> table[..n][h] == table[h];
    }
  }

  /** A new string goes to the head of its chain. */
  lemma ElementsPush(table: Chains, h: nat, p: Str)
    requires h < |table|
    ensures Elements(table[h := [p] + table[h]]) == Elements(table) + multiset{p}
  {
    ElementsUpdate(table, h, [p] + table[h]);
    assert multiset([p] + table[h]) == multiset{p} + multiset(table[h]);
    Cancel(Elements(table[h := [p] + table[h]]), Elements(table), multiset(table[h]), multiset{p});
  }

  lemma Shift(a: multiset<Str>, b: multiset<Str>, x: multiset<Str>, y: multiset<Str>, last: multiset<Str>)
    requires a + x == b + y
    ensures (a + last) + x == (b + last) + y
  {
    assert (a + last) + x == (a + x) + last && (b + last) + y == (b + y) + last;
  }

  lemma Cancel(a: multiset<Str>, b: multiset<Str>, x: multiset<Str>, y: multiset<Str>)
    requires a + x == b + (y + x)
    ensures a == b + y
  {
    assert a == (a + x) - x && b + y == (b + (y + x)) - x;
  }

  /** Every string is in the chain its hash says, and no string of one character is there. */
  ghost predicate InPlace(table: Chains, bits: nat) {
    bits <= 32 && forall h, k :: 0 <= h < |table| && 0 <= k < |table[h]| ==> Placed(table[h][k], h, bits)
  }

  predicate Placed(p: Str, h: nat, bits: nat)
    requires bits <= 32
  {
    p.hash == HashOf(p.text) && Bucket(p.hash, bits) == h && |p.text| != 1
  }

  ghost predicate Distinct(m: multiset<Str>) {
    forall p :: m[p] <= 1
  }

  ghost predicate Sized(table: Chains, bits: nat) {
    (table == [] && bits == 0) || (4 <= bits <= 31 && |table| == Pow2(bits))
  }

  function Entry(text: seq<nat>): Str {
    Str(HashOf(text), text)
  }

  lemma PushPlaced(table: Chains, bits: nat, h: nat, p: Str)
    requires InPlace(table, bits) && h < |table| && Placed(p, h, bits)
    ensures InPlace(table[h := [p] + table[h]], bits)
  {
    hide Placed;
    var table' := table[h := [p] + table[h]];
    forall i, k | 0 <= i < |table'| && 0 <= k < |table'[i]| ensures Placed(table'[i][k], i, bits) {
      if i == h && k > 0 { assert table'[i][k] == table[h][k - 1]; }
    }
  }

  /** A string is in the table just when it is in its own chain. */
  lemma InOwnChain(table: Chains, bits: nat, p: Str)
    requires InPlace(table, bits) && bits <= 32 && Bucket(p.hash, bits) < |table|
    ensures p in Elements(table) <==> p in table[Bucket(p.hash, bits)]
  {
    ElementsIn(table, p);
    if p in Elements(table) {
      var h :| 0 <= h < |table| && p in table[h];
      var k :| 0 <= k < |table[h]| && table[h][k] == p;
      assert Placed(table[h][k], h, bits);
    }
  }

  lemma {:induction false} NoElements(table: Chains)
    ensures |Elements(table)| == 0 <==> forall h :: 0 <= h < |table| ==> table[h] == []
  {
    if table != [] {
      var n := |table| - 1;
      NoElements(table[..n]);
      assert |multiset(table[n])| == |table[n]|;
      assert forall h :: 0 <= h < n ==> table[..n][h] == table[h];
    }
  }

  // ----- a table that removals have emptied -----

  /** All strings have been removed, but the chains are still there. */
  ghost predicate Emptied(table: Chains, bits: nat) {
    4 <= bits <= 31 && |table| == Pow2(bits) && forall h :: 0 <= h < |table| ==> table[h] == []
  }

  /** Insertion takes the first chain then, whatever the hash says. */
  lemma FirstChain(table: Chains, bits: nat, text: seq<nat>)
    requires Emptied(table, bits) && |text| != 1
    ensures |table| > 0 && Bucket(HashOf(text), bits) < |table|
    ensures var table' := table[0 := [Entry(text)] + table[0]];
            && (Entry(text) in table'[Bucket(HashOf(text), bits)] <==> Bucket(HashOf(text), bits) == 0)
            && (InPlace(table', bits) <==> Bucket(HashOf(text), bits) == 0)
  {
    hide HashOf, Bucket, Pow2;
    BucketBelow(HashOf(text), bits);
    var table' := table[0 := [Entry(text)] + table[0]];
    assert table'[0] == [Entry(text)];
    if InPlace(table', bits) { assert Placed(table'[0][0], 0, bits); }
  }

  lemma EmptiedIs(table: Chains, bits: nat)
    requires Sized(table, bits) && |Elements(table)| == 0 && table != []
    ensures Emptied(table, bits)
  {
    NoElements(table);
  }

  /** The chain of the empty string in a table of 16 chains is not the first one. */
  lemma ChainOfTheEmptyString()
    ensures Bucket(HashOf([]), 4) == 6
  {
    assert Pow2(4) == 16 && Pow2(8) == 256;
    Pow2Times(8, 8);
    Pow2Times(16, 8);
    Pow2Times(24, 4);
    assert HashOf([]) == 0x61C88647;
    assert Pow2(28) == 0x1000_0000;
  }

  // ----- moving to a larger table -----

  /** Chains below `i` and the first `k` strings of chain `i` have been moved. */
  ghost predicate Transferred(table: Chains, i: nat, k: nat, new_: Chains, bits: nat)
    requires i <= |table| && (i < |table| ==> k <= |table[i]|)
  {
    && InPlace(new_, bits) && |new_| == Pow2(bits) && 4 <= bits <= 31
    && Elements(new_) == Elements(table[..i]) + if i < |table| then multiset(table[i][..k]) else multiset{}
  }

  lemma MovedOne(table: Chains, oldBits: nat, i: nat, k: nat, new_: Chains, bits: nat)
    requires InPlace(table, oldBits) && i < |table| && k < |table[i]| && Transferred(table, i, k, new_, bits)
    ensures var p := table[i][k]; var h := Bucket(p.hash, bits);
            h < |new_| && Transferred(table, i, k + 1, new_[h := [p] + new_[h]], bits)
  {
    var p := table[i][k];
    assert Placed(p, i, oldBits);
    BucketBelow(p.hash, bits);
    var h := Bucket(p.hash, bits);
    PushPlaced(new_, bits, h, p);
    ElementsPush(new_, h, p);
    assert table[i][..k + 1] == table[i][..k] + [p];
    assert multiset(table[i][..k + 1]) == multiset(table[i][..k]) + multiset{p};
  }

  lemma MovedChain(table: Chains, i: nat, new_: Chains, bits: nat)
    requires i < |table| && Transferred(table, i, |table[i]|, new_, bits)
    ensures Transferred(table, i + 1, 0, new_, bits)
  {
    assert table[i][..|table[i]|] == table[i];
    assert table[..i + 1][..i] == table[..i];
    if i + 1 < |table| { assert table[i + 1][..0] == []; }
  }

  lemma {:induction false} EmptyChains(n: nat)
    ensures Elements(seq(n, _ => [])) == multiset{}
  {
    var table: Chains := seq(n, _ => []);
    if n > 0 {
      EmptyChains(n - 1);
      assert table[..n - 1] == seq(n - 1, _ => []);
    }
  }

  lemma NothingMoved(table: Chains, bits: nat)
    requires 4 <= bits <= 31
    ensures Transferred(table, 0, 0, seq(Pow2(bits), _ => []), bits)
  {
    EmptyChains(Pow2(bits));
    assert table[..0] == [];
    if |table| > 0 { assert table[0][..0] == []; }
  }

  /** Moves every string to a table of 2^bits chains; within a chain their order is reversed. */
  method Rehash(table: Chains, oldBits: nat, bits: nat) returns (new_: Chains)
    requires InPlace(table, oldBits) && 4 <= bits <= 31
    ensures InPlace(new_, bits) && |new_| == Pow2(bits) && Elements(new_) == Elements(table)
  {
    hide InPlace, Elements, Pow2, Bucket;
    new_ := seq(Pow2(bits), _ => []);
    NothingMoved(table, bits);
    var i := 0;
    while i < |table|
      invariant 0 <= i <= |table| && Transferred(table, i, 0, new_, bits)
    {
      var k := 0;
      while k < |table[i]|
        invariant 0 <= k <= |table[i]| && Transferred(table, i, k, new_, bits)
      {
        var p := table[i][k];
        MovedOne(table, oldBits, i, k, new_, bits);
        var h := Bucket(p.hash, bits);
        new_ := new_[h := [p] + new_[h]];
        k := k + 1;
      }
      MovedChain(table, i, new_, bits);
      i := i + 1;
    }
    assert table[..i] == table;
  }

  // ----- the list -----

  const MAX_STRINGS: nat := 0x8000_0000

  lemma Pow2Is31()
    ensures Pow2(31) == MAX_STRINGS
  {
    Pow2Is32();
  }

  /** A table that is full can still grow. */
  lemma CanGrow(table: Chains, bits: nat, n: nat)
    requires Sized(table, bits) && n < MAX_STRINGS && n + 1 > |table|
    ensures table == [] || bits <= 30
  {
    Pow2Is31();
  }

  lemma PushDistinct(m: multiset<Str>, p: Str)
    requires Distinct(m) && p !in m
    ensures Distinct(m + multiset{p}) && |m + multiset{p}| == |m| + 1
  {
  }

  lemma {:induction false} ElementsNone(table: Chains)
    requires |Elements(table)| == 0
    ensures Elements(table) == multiset{}
  {
    hide Elements;
  }

  lemma NewTable()
    ensures Sized([], 0) && InPlace([], 0) && Distinct(Elements([])) && Elements([]) == multiset{}
  {
  }

  lemma NotEmpty(table: Chains, p: Str)
    requires p in Elements(table)
    ensures |Elements(table)| > 0
  {
    hide Elements;
  }

  lemma ChainExists(table: Chains, bits: nat, hash: nat)
    requires table != [] && Sized(table, bits) && hash < TWO32
    ensures bits <= 32 && Bucket(hash, bits) < |table|
  {
    BucketBelow(hash, bits);
  }

  /** A text held in a set of characters and a set of strings. */
  ghost predicate HeldIn(ps: seq<nat>, e: multiset<Str>, text: seq<nat>) {
    if |text| == 1 then InPoints(ps, text[0]) else Entry(text) in e
  }

  class StringList {
    const cr: CharRange
    var nStrings: nat
    var hashBits: nat
    var table: Chains

    ghost predicate Valid()
      reads this, cr
    {
      Canonical(cr.points) && ValidTable()
    }

    ghost predicate ValidTable()
      reads this
    {
      && Sized(table, hashBits) && InPlace(table, hashBits)
      && Distinct(Elements(table)) && nStrings == |Elements(table)|
    }

    /** The strings and characters of the list. */
    ghost predicate Holds(text: seq<nat>)
      reads this, cr
    {
      HeldIn(cr.points, Elements(table), text)
    }

    constructor (cr: CharRange)
      requires cr.points == []
      ensures this.cr == cr && Valid() && nStrings == 0 && table == []
    {
      this.cr := cr;
      nStrings, hashBits, table := 0, 0, [];
    }

    /** The chains are as many as the size says, and hold no string twice. */
    ghost predicate Shaped()
      reads this
    {
      Sized(table, hashBits) && Distinct(Elements(table)) && nStrings == |Elements(table)|
    }

    /** Removals have left a table without strings: the number of the chain is then not computed. */
    ghost predicate LeftEmpty()
      reads this
    {
      nStrings == 0 && table != []
    }

    /** Searches the chain of the string. */
    method Find(text: seq<nat>, h0: nat) returns (found: bool)
      requires Shaped() && h0 == HashOf(text)
      ensures nStrings != 0 ==> hashBits <= 32 && Bucket(h0, hashBits) < |table|
      ensures found <==> nStrings != 0 && Entry(text) in table[Bucket(h0, hashBits)]
      ensures ValidTable() ==> (found <==> Entry(text) in Elements(table))
    {
      hide Elements, Bucket, Pow2, InPlace, HashOf;
      found := false;
      if nStrings != 0 {
        NewTable();
        ChainExists(table, hashBits, h0);
        var h := Bucket(h0, hashBits);
        if InPlace(table, hashBits) { InOwnChain(table, hashBits, Entry(text)); }
        var k := 0;
        while k < |table[h]|
          invariant 0 <= k <= |table[h]| && Entry(text) !in table[h][..k]
        {
          var p := table[h][k];
          if p.hash == h0 && |p.text| == |text| && p.text == text {
            return true;
          }
          assert table[h][..k + 1] == table[h][..k] + [p];
          k := k + 1;
        }
        assert table[h][..k] == table[h];
      }
      if nStrings == 0 { ElementsNone(table); }
    }

    /**
      Adds the string unless it is there; the table doubles when it is full. In a table
      that removals have emptied the string goes to the first chain, and the table stays
      in order just when that is the chain of its hash.
     */
    method FindOrAdd(text: seq<nat>, h0: nat)
      requires ValidTable() && h0 == HashOf(text) && |text| != 1 && nStrings < MAX_STRINGS
      modifies this
      ensures Shaped() && nStrings > 0 && nStrings <= old(nStrings) + 1
      ensures Elements(table) == if Entry(text) in old(Elements(table)) then old(Elements(table)) else old(Elements(table)) + multiset{Entry(text)}
      ensures !old(LeftEmpty()) ==> ValidTable()
      ensures old(LeftEmpty()) ==>
                && hashBits == old(hashBits) <= 32 && table == old(table)[0 := [Entry(text)] + old(table)[0]]
                && (ValidTable() <==> Bucket(h0, hashBits) == 0)
    {
      hide Elements, Bucket, Pow2, InPlace, HashOf, Distinct;
      var found := Find(text, h0);
      if found {
        NotEmpty(table, Entry(text));
        return;
      }
      ghost var e := Elements(table);
      var h := 0;
      if nStrings != 0 {
        NewTable();
        ChainExists(table, hashBits, h0);
        h := Bucket(h0, hashBits);
      } else if table != [] {
        EmptiedIs(table, hashBits);
        FirstChain(table, hashBits, text);
      }
      if nStrings + 1 > |table| {
        CanGrow(table, hashBits, nStrings);
        var newBits := if hashBits + 1 > 4 then hashBits + 1 else 4;
        table := Rehash(table, hashBits, newBits);
        hashBits := newBits;
        ChainExists(table, hashBits, h0);
        h := Bucket(h0, hashBits);
      }
      var p := Str(h0, text);
      if !old(LeftEmpty()) { PushPlaced(table, hashBits, h, p); }
      ElementsPush(table, h, p);
      PushDistinct(e, p);
      table := table[h := [p] + table[h]];
      nStrings := nStrings + 1;
    }

    /** A string that was just added is found, except in an emptied table where its chain is not the first. */
    method AddAndFind(text: seq<nat>) returns (found: bool)
      requires ValidTable() && |text| != 1 && nStrings < MAX_STRINGS
      modifies this
      ensures found <==> !old(LeftEmpty()) || Bucket(HashOf(text), old(hashBits)) == 0
    {
      hide Elements, Bucket, Pow2, InPlace, HashOf, Distinct, Sized;
      if LeftEmpty() {
        EmptiedIs(table, hashBits);
        FirstChain(table, hashBits, text);
      }
      var h0 := StringHash(text);
      FindOrAdd(text, h0);
      found := Find(text, h0);
    }

    method Add(text: seq<nat>)
      requires Valid() && nStrings < MAX_STRINGS
      requires |text| == 1 ==> text[0] < UINT32_MAX
      modifies this, cr
      ensures Canonical(cr.points) && Shaped() && nStrings <= old(nStrings) + 1
      ensures |text| == 1 || !old(LeftEmpty()) || Bucket(HashOf(text), old(hashBits)) == 0 <==> Valid()
      ensures old(table) == [] ==> nStrings == 0 ==> table == []
      ensures forall other: seq<nat> :: Holds(other) <==> old(Holds(other)) || other == text
    {
      hide Elements, InPlace, HashOf, InPoints, Distinct, Sized, Canonical, Bucket;
      if |text| == 1 {
        cr.UnionInterval(text[0], text[0]);
        assert forall other: seq<nat> :: |other| == 1 && other[0] == text[0] ==> other == text;
      } else {
        var h0 := StringHash(text);
        FindOrAdd(text, h0);
      }
    }

    // ----- operations on whole lists -----

    /** Adds every string of another list. */
    method AddStrings(b: StringList)
      requires ValidTable() && b.ValidTable() && b != this
      requires nStrings + b.nStrings < MAX_STRINGS && (nStrings == 0 && b.nStrings != 0 ==> table == [])
      modifies this
      ensures ValidTable()
      ensures forall p: Str :: p in Elements(table) <==> p in old(Elements(table)) || p in Elements(b.table)
    {
      hide Elements, InPlace, HashOf, Distinct, Sized, Gathered;
      ghost var e := Elements(table);
      if b.nStrings != 0 {
        NothingGathered(e, b.table);
        var i := 0;
        while i < |b.table|
          invariant 0 <= i <= |b.table| && ValidTable() && (nStrings == 0 ==> table == [])
          invariant Gathered(e, Elements(table), b.table, i, 0) && nStrings <= |e| + Count(b.table, i, 0)
        {
          AddChain(b, i, e);
          GatheredChain(e, Elements(table), b.table, i);
          i := i + 1;
        }
        GatheredAll(e, Elements(table), b.table, i);
      } else {
        ElementsNone(b.table);
      }
    }

    method AddChain(b: StringList, i: nat, ghost e: multiset<Str>)
      requires ValidTable() && b.ValidTable() && b != this && i < |b.table| && |e| + b.nStrings < MAX_STRINGS
      requires (nStrings == 0 ==> table == []) && Gathered(e, Elements(table), b.table, i, 0) && nStrings <= |e| + Count(b.table, i, 0)
      modifies this
      ensures ValidTable() && (nStrings == 0 ==> table == [])
      ensures Gathered(e, Elements(table), b.table, i, |b.table[i]|) && nStrings <= |e| + Count(b.table, i, |b.table[i]|)
    {
      hide Elements, InPlace, HashOf, Distinct, Sized, Gathered;
      var k := 0;
      while k < |b.table[i]|
        invariant 0 <= k <= |b.table[i]| && ValidTable() && (nStrings == 0 ==> table == [])
        invariant Gathered(e, Elements(table), b.table, i, k) && nStrings <= |e| + Count(b.table, i, k)
      {
        var q := b.table[i][k];
        ghost var e' := Elements(table);
        CountOne(b.table, i, k);
        EntryAt(b.table, b.hashBits, i, k);
        FindOrAdd(q.text, q.hash);
        GatheredOne(e, e', Elements(table), b.table, i, k);
        k := k + 1;
      }
    }

    /** Removes the strings that are in `b`, or those that are not. */
    method KeepStrings(b: StringList, wanted: bool)
      requires ValidTable() && b.ValidTable() && b != this
      modifies this
      ensures ValidTable() && nStrings <= old(nStrings)
      ensures forall p: Str :: p in Elements(table) <==> p in old(Elements(table)) && (p in Elements(b.table)) == wanted
    {
      hide Elements, InPlace, HashOf, Distinct, Sized;
      ghost var e, eb := Elements(table), Elements(b.table);
      var i, n := 0, |table|;
      while i < n
        invariant 0 <= i <= n == |table| && ValidTable() && nStrings <= |e|
        invariant Filtered(e, eb, wanted, table, i, 0)
      {
        KeepInChain(b, wanted, i, e, eb);
        FilteredNext(e, eb, wanted, table, i);
        i := i + 1;
      }
      FilteredAll(e, eb, wanted, table, i);
    }

    /** One chain: strings are unlinked as they are met. */
    method KeepInChain(b: StringList, wanted: bool, i: nat, ghost e: multiset<Str>, ghost eb: multiset<Str>)
      requires ValidTable() && b.ValidTable() && b != this && eb == Elements(b.table)
      requires i < |table| && Filtered(e, eb, wanted, table, i, 0)
      modifies this
      ensures ValidTable() && nStrings <= old(nStrings) && |table| == old(|table|)
      ensures Filtered(e, eb, wanted, table, i, |table[i]|)
    {
      hide Elements, InPlace, HashOf, Distinct, Sized, Filtered;
      ghost var n, size := |table|, nStrings;
      var k := 0;
      while k < |table[i]|
        invariant i < |table| == n && 0 <= k <= |table[i]| && ValidTable() && nStrings <= size
        invariant Filtered(e, eb, wanted, table, i, k)
        decreases if i < |table| then |table[i]| - k else 0
      {
        var p := table[i][k];
        EntryAt(table, hashBits, i, k);
        var found := b.Find(p.text, p.hash);
        if found != wanted {
          Removed(table, hashBits, i, k);
          FilteredRemove(e, eb, wanted, table, i, k);
          table := table[i := table[i][..k] + table[i][k + 1..]];
          nStrings := nStrings - 1;
        } else {
          FilteredKeep(e, eb, wanted, table, i, k);
          k := k + 1;
        }
      }
    }

    /** `this` becomes `this op b`. */
    method ListOp(b: StringList, op: Operation)
      requires Valid() && b.Valid() && b != this && b.cr != cr && op != Xor
      requires op == Union ==> nStrings + b.nStrings < MAX_STRINGS && (nStrings == 0 && b.nStrings != 0 ==> table == [])
      modifies this, cr
      ensures Valid()
      ensures forall text: seq<nat> :: Holds(text) <==> Combine(op, old(Holds(text)), old(b.Holds(text)))
    {
      hide Elements, InPlace, HashOf, InPoints, Distinct, Sized, Canonical, Strict, NonDecreasing, Combines;
      ghost var ps, e, eb := cr.points, Elements(table), Elements(b.table);
      CanonicalStrict(cr.points);
      CanonicalStrict(b.cr.points);
      cr.Op1(b.cr.points, op);
      StrictCanonical(cr.points);
      forall c: nat ensures InPoints(cr.points, c) <==> Combine(op, InPoints(ps, c), InPoints(b.cr.points, c)) {
        OperationMeans(op, ps, b.cr.points, cr.points, c);
      }
      match op
      case Union => AddStrings(b);
      case Inter => KeepStrings(b, true);
      case Sub => KeepStrings(b, false);
    }

    /** Every string and character is replaced by its canonical form; strings go to a new table. */
    method Canonicalize(t: Tables, unicode: bool)
      requires Valid() && WellFormed(t) && AsciiAgrees(t, unicode) && nStrings < MAX_STRINGS
      modifies this, cr
      ensures Valid()
      ensures forall text: seq<nat> :: Holds(text) <==> HeldFolded(t, unicode, old(cr.points), old(Elements(table)), text)
    {
      hide Elements, InPlace, HashOf, InPoints, Distinct, Sized, Canonical, WellFormed, AsciiAgrees, CaseFolding.Image, FoldText, Canon;
      ghost var ps, e := cr.points, Elements(table);
      ghost var bits := hashBits;
      ElementsEntries(table, bits);
      RegexpCanonicalize(t, unicode, cr);
      if nStrings != 0 {
        var a := table;
        nStrings, hashBits, table := 0, 0, [];
        NewTable();
        FoldStrings(t, unicode, a, bits);
      } else {
        ElementsNone(table);
      }
      forall text: seq<nat> ensures Holds(text) <==> HeldFolded(t, unicode, ps, e, text) {
        FoldedText(t, unicode, ps, e, cr.points, Elements(table), text);
      }
    }

    /** Moves the strings of a table here, each in canonical form. */
    method FoldStrings(t: Tables, unicode: bool, a: Chains, ghost bits: nat)
      requires ValidTable() && table == [] && WellFormed(t) && InPlace(a, bits) && |Elements(a)| < MAX_STRINGS
      modifies this
      ensures ValidTable() && FoldedStrings(t, unicode, Elements(a), Elements(table))
    {
      hide Elements, InPlace, HashOf, Distinct, Sized, WellFormed, FoldText, FoldedSeen, FoldedStrings;
      NothingFolded(t, unicode, a);
      var i := 0;
      while i < |a|
        invariant 0 <= i <= |a| && ValidTable() && (nStrings == 0 ==> table == [])
        invariant FoldedSeen(t, unicode, a, i, 0, Elements(table)) && nStrings <= Count(a, i, 0)
      {
        FoldChain(t, unicode, a, bits, i);
        FoldedChain(t, unicode, a, i, Elements(table));
        i := i + 1;
      }
      AllFolded(t, unicode, a, i, Elements(table));
    }

    method FoldChain(t: Tables, unicode: bool, a: Chains, ghost bits: nat, i: nat)
      requires ValidTable() && (nStrings == 0 ==> table == []) && WellFormed(t) && InPlace(a, bits) && |Elements(a)| < MAX_STRINGS
      requires i < |a| && FoldedSeen(t, unicode, a, i, 0, Elements(table)) && nStrings <= Count(a, i, 0)
      modifies this
      ensures ValidTable() && (nStrings == 0 ==> table == [])
      ensures FoldedSeen(t, unicode, a, i, |a[i]|, Elements(table)) && nStrings <= Count(a, i, |a[i]|)
    {
      hide Elements, InPlace, HashOf, Distinct, Sized, WellFormed, FoldText, FoldedSeen;
      var k := 0;
      while k < |a[i]|
        invariant 0 <= k <= |a[i]| && ValidTable() && (nStrings == 0 ==> table == [])
        invariant FoldedSeen(t, unicode, a, i, k, Elements(table)) && nStrings <= Count(a, i, k)
      {
        var q := a[i][k];
        CountOne(a, i, k);
        EntryAt(a, bits, i, k);
        var text := Folding(t, unicode, q.text);
        FoldedLength(t, unicode, q.text);
        var h0 := StringHash(text);
        ghost var e := Elements(table);
        FindOrAdd(text, h0);
        FoldedOne(t, unicode, a, i, k, e, Elements(table));
        k := k + 1;
      }
    }
  }

  // ----- canonical forms of strings -----

  function FoldText(t: Tables, unicode: bool, text: seq<nat>): (r: seq<nat>)
    requires WellFormed(t)
    ensures |r| == |text|
  {
    seq(|text|, k requires 0 <= k < |text| => Canon(t, unicode, text[k]))
  }

  method Folding(t: Tables, unicode: bool, text: seq<nat>) returns (r: seq<nat>)
    requires WellFormed(t)
    ensures r == FoldText(t, unicode, text)
  {
    hide WellFormed, Canon;
    r := [];
    var j := 0;
    while j < |text|
      invariant 0 <= j <= |text| && r == FoldText(t, unicode, text)[..j]
    {
      var c := LreCanonicalize(t, text[j], unicode);
      r := r + [c];
      j := j + 1;
    }
  }

  /** The strings of `e'` are the canonical forms of those of `e`. */
  ghost predicate FoldedStrings(t: Tables, unicode: bool, e: multiset<Str>, e': multiset<Str>)
    requires WellFormed(t)
  {
    forall p: Str :: p in e' <==> exists q :: q in e && p == Entry(FoldText(t, unicode, q.text))
  }

  ghost predicate FoldedSeen(t: Tables, unicode: bool, a: Chains, i: nat, k: nat, e': multiset<Str>)
    requires WellFormed(t) && i <= |a| && (i < |a| ==> k <= |a[i]|)
  {
    forall p: Str :: p in e' <==> exists q :: Seen(a, i, k, q) && p == Entry(FoldText(t, unicode, q.text))
  }

  /** Folding goes character by character. */
  lemma FoldedLength(t: Tables, unicode: bool, text: seq<nat>)
    requires WellFormed(t)
    ensures |FoldText(t, unicode, text)| == |text|
    ensures forall k :: 0 <= k < |text| ==> FoldText(t, unicode, text)[k] == Canon(t, unicode, text[k])
  {
  }

  lemma NothingFolded(t: Tables, unicode: bool, a: Chains)
    requires WellFormed(t)
    ensures FoldedSeen(t, unicode, a, 0, 0, Elements([])) && Count(a, 0, 0) == 0
  {
    hide Seen;
    SeenEnds(a);
    NewTable();
  }

  lemma FoldedOne(t: Tables, unicode: bool, a: Chains, i: nat, k: nat, e: multiset<Str>, e': multiset<Str>)
    requires WellFormed(t) && i < |a| && k < |a[i]| && FoldedSeen(t, unicode, a, i, k, e)
    requires var p := Entry(FoldText(t, unicode, a[i][k].text)); e' == if p in e then e else e + multiset{p}
    ensures FoldedSeen(t, unicode, a, i, k + 1, e')
  {
    hide FoldText, HashOf, Seen, WellFormed;
    var new_ := Entry(FoldText(t, unicode, a[i][k].text));
    var q := a[i][k];
    forall q: Str ensures Seen(a, i, k + 1, q) <==> Seen(a, i, k, q) || q == a[i][k] { SeenOne(a, i, k, q); }
    SeenOne(a, i, k, q);
    forall p: Str ensures p in e' <==> exists q :: Seen(a, i, k + 1, q) && p == Entry(FoldText(t, unicode, q.text)) {
      assert p in e' <==> p in e || p == new_;
    }
  }

  lemma FoldedChain(t: Tables, unicode: bool, a: Chains, i: nat, e': multiset<Str>)
    requires WellFormed(t) && i < |a| && FoldedSeen(t, unicode, a, i, |a[i]|, e')
    ensures FoldedSeen(t, unicode, a, i + 1, 0, e') && Count(a, i + 1, 0) == Count(a, i, |a[i]|)
  {
    hide FoldText, HashOf, Seen, WellFormed;
    SeenChain(a, i);
  }

  lemma AllFolded(t: Tables, unicode: bool, a: Chains, i: nat, e': multiset<Str>)
    requires WellFormed(t) && i == |a| && FoldedSeen(t, unicode, a, i, 0, e')
    ensures FoldedStrings(t, unicode, Elements(a), e')
  {
    hide FoldText, HashOf, Seen, WellFormed, Elements;
    SeenEnds(a);
  }

  /** The text is the canonical form of one that was held. */
  ghost predicate HeldFolded(t: Tables, unicode: bool, ps: seq<nat>, e: multiset<Str>, text: seq<nat>)
    requires WellFormed(t)
  {
    exists s :: HeldIn(ps, e, s) && FoldText(t, unicode, s) == text
  }

  /** A string is held afterwards just when it is the canonical form of one held before. */
  lemma FoldedText(t: Tables, unicode: bool, ps: seq<nat>, e: multiset<Str>, ps': seq<nat>, e': multiset<Str>, text: seq<nat>)
    requires WellFormed(t) && FoldedStrings(t, unicode, e, e')
    requires forall p :: p in e ==> p == Entry(p.text) && |p.text| != 1
    requires forall d: nat :: InPoints(ps', d) <==> CaseFolding.Image(t, unicode, ps, d)
    ensures HeldIn(ps', e', text) <==> HeldFolded(t, unicode, ps, e, text)
  {
    hide HashOf, InPoints, WellFormed, Canon;
    if HeldIn(ps', e', text) {
      if |text| == 1 {
        assert CaseFolding.Image(t, unicode, ps, text[0]);
        var c: nat :| InPoints(ps, c) && Canon(t, unicode, c) == text[0];
        assert HeldIn(ps, e, [c]) && FoldText(t, unicode, [c]) == text;
      } else {
        var q :| q in e && Entry(text) == Entry(FoldText(t, unicode, q.text));
        assert HeldIn(ps, e, q.text);
      }
    }
    if HeldFolded(t, unicode, ps, e, text) {
      var s :| HeldIn(ps, e, s) && FoldText(t, unicode, s) == text;
      if |s| == 1 {
        assert Canon(t, unicode, s[0]) == text[0];
        assert CaseFolding.Image(t, unicode, ps, text[0]);
      } else {
        assert Entry(text) == Entry(FoldText(t, unicode, Entry(s).text));
      }
    }
  }

  lemma ElementsEntries(table: Chains, bits: nat)
    requires InPlace(table, bits)
    ensures forall p :: p in Elements(table) ==> p == Entry(p.text) && |p.text| != 1
  {
    hide HashOf;
    forall p | p in Elements(table) ensures p == Entry(p.text) && |p.text| != 1 {
      ElementsIn(table, p);
      var h :| 0 <= h < |table| && p in table[h];
      var k :| 0 <= k < |table[h]| && table[h][k] == p;
      assert Placed(table[h][k], h, bits);
    }
  }

  // ----- removing strings -----

  /** Chains below `i` and the first `k` strings of chain `i` have been looked at; what had to go is gone. */
  ghost predicate Filtered(e: multiset<Str>, eb: multiset<Str>, wanted: bool, table: Chains, i: nat, k: nat)
    requires i <= |table| && (i < |table| ==> k <= |table[i]|)
  {
    && (forall p: Str :: p in Elements(table) ==> p in e)
    && (forall p: Str :: p in e && (p in eb) == wanted ==> p in Elements(table))
    && (forall h, x :: 0 <= h < i && 0 <= x < |table[h]| ==> (table[h][x] in eb) == wanted)
    && (i < |table| ==> forall x :: 0 <= x < k ==> (table[i][x] in eb) == wanted)
  }

  lemma EntryAt(table: Chains, bits: nat, i: nat, k: nat)
    requires InPlace(table, bits) && i < |table| && k < |table[i]|
    ensures table[i][k].hash == HashOf(table[i][k].text) && table[i][k] == Entry(table[i][k].text) && |table[i][k].text| != 1
  {
    hide HashOf;
    assert Placed(table[i][k], i, bits);
  }

  lemma Without(chain: seq<Str>, k: nat)
    requires k < |chain|
    ensures multiset(chain) == multiset(chain[..k] + chain[k + 1..]) + multiset{chain[k]}
  {
    assert chain == chain[..k] + [chain[k]] + chain[k + 1..];
  }

  lemma DistinctLess(m: multiset<Str>, m': multiset<Str>, p: Str)
    requires Distinct(m) && m == m' + multiset{p}
    ensures Distinct(m') && |m'| == |m| - 1
  {
    forall q ensures m'[q] <= 1 { assert m[q] == (m' + multiset{p})[q]; }
  }

  /** Taking a string out of its chain takes exactly one element away. */
  lemma Removed(table: Chains, bits: nat, i: nat, k: nat)
    requires InPlace(table, bits) && i < |table| && k < |table[i]| && Distinct(Elements(table)) && Sized(table, bits)
    ensures var table' := table[i := table[i][..k] + table[i][k + 1..]];
            && InPlace(table', bits) && Sized(table', bits)
            && Elements(table) == Elements(table') + multiset{table[i][k]}
            && Distinct(Elements(table')) && |Elements(table')| == |Elements(table)| - 1
  {
    hide Elements, Placed;
    var chain := table[i][..k] + table[i][k + 1..];
    var table' := table[i := chain];
    ElementsUpdate(table, i, chain);
    Without(table[i], k);
    Cancel(Elements(table), Elements(table'), multiset(chain), multiset{table[i][k]});
    DistinctLess(Elements(table), Elements(table'), table[i][k]);
    forall h, x | 0 <= h < |table'| && 0 <= x < |table'[h]| ensures Placed(table'[h][x], h, bits) {
      if h == i && x >= k { assert table'[h][x] == table[i][x + 1]; }
    }
  }

  lemma FilteredRemove(e: multiset<Str>, eb: multiset<Str>, wanted: bool, table: Chains, i: nat, k: nat)
    requires i < |table| && k < |table[i]| && Filtered(e, eb, wanted, table, i, k) && (table[i][k] in eb) != wanted
    requires Elements(table) == Elements(table[i := table[i][..k] + table[i][k + 1..]]) + multiset{table[i][k]}
    ensures Filtered(e, eb, wanted, table[i := table[i][..k] + table[i][k + 1..]], i, k)
  {
    hide Elements;
    var table' := table[i := table[i][..k] + table[i][k + 1..]];
    forall p: Str ensures p in Elements(table) <==> p in Elements(table') || p == table[i][k] {
      assert p in Elements(table') + multiset{table[i][k]} <==> p in Elements(table') || p == table[i][k];
    }
  }

  lemma FilteredKeep(e: multiset<Str>, eb: multiset<Str>, wanted: bool, table: Chains, i: nat, k: nat)
    requires i < |table| && k < |table[i]| && Filtered(e, eb, wanted, table, i, k) && (table[i][k] in eb) == wanted
    ensures Filtered(e, eb, wanted, table, i, k + 1)
  {
    hide Elements;
  }

  lemma FilteredNext(e: multiset<Str>, eb: multiset<Str>, wanted: bool, table: Chains, i: nat)
    requires i < |table| && Filtered(e, eb, wanted, table, i, |table[i]|)
    ensures Filtered(e, eb, wanted, table, i + 1, 0)
  {
    hide Elements;
  }

  lemma FilteredAll(e: multiset<Str>, eb: multiset<Str>, wanted: bool, table: Chains, i: nat)
    requires i == |table| && Filtered(e, eb, wanted, table, i, 0)
    ensures forall p: Str :: p in Elements(table) <==> p in e && (p in eb) == wanted
  {
    hide Elements;
    forall p: Str | p in Elements(table) ensures (p in eb) == wanted {
      ElementsIn(table, p);
      var h :| 0 <= h < |table| && p in table[h];
      var x :| 0 <= x < |table[h]| && table[h][x] == p;
    }
  }

  // ----- walking through a table -----

  /** `p` is in a chain below `i`, or among the first `k` of chain `i`. */
  ghost predicate Seen(table: Chains, i: nat, k: nat, p: Str)
    requires i <= |table| && (i < |table| ==> k <= |table[i]|)
  {
    p in Elements(table[..i]) || (i < |table| && p in table[i][..k])
  }

  /** How many strings have been walked past. */
  ghost function Count(table: Chains, i: nat, k: nat): nat
    requires i <= |table|
  {
    |Elements(table[..i])| + k
  }

  lemma CountOne(table: Chains, i: nat, k: nat)
    requires i < |table| && k < |table[i]|
    ensures Count(table, i, k + 1) == Count(table, i, k) + 1 && Count(table, i, k) < |Elements(table)|
  {
    hide Elements;
    CountBelow(table, i);
  }

  lemma SeenOne(table: Chains, i: nat, k: nat, p: Str)
    requires i < |table| && k < |table[i]|
    ensures Seen(table, i, k + 1, p) <==> Seen(table, i, k, p) || p == table[i][k]
  {
    hide Elements;
    var before, q, after := table[i][..k], table[i][k], table[i][..k + 1];
    assert after == before + [q];
    assert p in before + [q] <==> p in before || p in [q];
  }

  lemma {:induction false} CountBelow(table: Chains, i: nat)
    requires i < |table|
    ensures |Elements(table[..i])| + |table[i]| <= |Elements(table)|
    decreases |table|
  {
    var n := |table| - 1;
    assert |multiset(table[n])| == |table[n]|;
    if i < n {
      CountBelow(table[..n], i);
      assert table[..n][..i] == table[..i];
    }
  }

  lemma SeenChain(table: Chains, i: nat)
    requires i < |table|
    ensures forall p: Str :: Seen(table, i + 1, 0, p) <==> Seen(table, i, |table[i]|, p)
    ensures Count(table, i + 1, 0) == Count(table, i, |table[i]|)
  {
    assert table[..i + 1][..i] == table[..i] && table[i][..|table[i]|] == table[i];
    assert |multiset(table[i])| == |table[i]|;
  }

  lemma SeenEnds(table: Chains)
    ensures forall p: Str :: !Seen(table, 0, 0, p)
    ensures forall p: Str :: Seen(table, |table|, 0, p) <==> p in Elements(table)
    ensures Count(table, 0, 0) == 0
  {
    assert table[..0] == [] && table[..|table|] == table;
  }

  /** `e'` holds the strings of `e` and those walked past. */
  ghost predicate Gathered(e: multiset<Str>, e': multiset<Str>, table: Chains, i: nat, k: nat)
    requires i <= |table| && (i < |table| ==> k <= |table[i]|)
  {
    forall p: Str :: p in e' <==> p in e || Seen(table, i, k, p)
  }

  lemma NothingGathered(e: multiset<Str>, table: Chains)
    ensures Gathered(e, e, table, 0, 0) && Count(table, 0, 0) == 0
  {
    hide Seen;
    SeenEnds(table);
  }

  lemma GatheredOne(e: multiset<Str>, e': multiset<Str>, e'': multiset<Str>, table: Chains, i: nat, k: nat)
    requires i < |table| && k < |table[i]| && Gathered(e, e', table, i, k)
    requires var q := table[i][k]; e'' == if q in e' then e' else e' + multiset{q}
    ensures Gathered(e, e'', table, i, k + 1)
  {
    hide Seen;
    forall p: Str ensures p in e'' <==> p in e || Seen(table, i, k + 1, p) {
      SeenOne(table, i, k, p);
      assert p in e'' <==> p in e' || p == table[i][k];
    }
  }

  lemma GatheredChain(e: multiset<Str>, e': multiset<Str>, table: Chains, i: nat)
    requires i < |table| && Gathered(e, e', table, i, |table[i]|)
    ensures Gathered(e, e', table, i + 1, 0) && Count(table, i + 1, 0) == Count(table, i, |table[i]|)
  {
    hide Seen;
    SeenChain(table, i);
  }

  lemma GatheredAll(e: multiset<Str>, e': multiset<Str>, table: Chains, i: nat)
    requires i == |table| && Gathered(e, e', table, i, 0)
    ensures forall p: Str :: p in e' <==> p in e || p in Elements(table)
  {
    hide Seen;
    SeenEnds(table);
  }
}
