/** ROA origin validation: a trie keyed on truncated binary strings, the per-route query,
    and the definition in section 2 of RFC 6811. */
module RoaTrie {
  import opened Journal

  datatype Version = V4 | V6

  function Width(v: Version): nat {
    if v == V4 then 32 else 128
  }

  function Pow2(n: nat): (p: nat)
    ensures p > 0
  {
    if n == 0 then 1 else 2 * Pow2(n - 1)
  }

  /** The address without its last k bits. */
  function Shift(n: nat, k: nat): nat {
    if k == 0 then n else Shift(n / 2, k - 1)
  }

  /** The binary digits of n, in w places, most significant first. */
  function Bits(n: nat, w: nat): (s: string)
    ensures |s| == w
  {
    if w == 0 then "" else Bits(n / 2, w - 1) + (if n % 2 == 1 then "1" else "0")
  }

  /** An address block: its first address and its prefix length. */
  datatype Prefix = Prefix(version: Version, first: nat, length: nat) {
    function HostBits(): int {
      Width(version) - length
    }

    predicate WellFormed() {
      length <= Width(version) && first < Pow2(Width(version)) && first == Shift(first, HostBits()) * Pow2(HostBits())
    }

    function Last(): int
      requires length <= Width(version)
    {
      first + Pow2(HostBits()) - 1
    }

    /** All addresses of the other block are addresses of this one. */
    predicate Contains(other: Prefix)
      requires length <= Width(version) && other.length <= Width(other.version)
    {
      version == other.version && first <= other.first && other.Last() <= Last()
    }
  }

  type Network = p: Prefix | p.WellFormed() witness Prefix(V4, 0, 32)

  datatype Roa = Roa(prefix: Network, asn: nat, maxLength: nat)

  /** Section 2 of RFC 6811: a ROA matches when it covers the route, allows its length, and has its origin;
      AS 0 never matches. */
  predicate Matches(roa: Roa, route: Network, asn: nat) {
    roa.prefix.Contains(route) && route.length <= roa.maxLength && roa.asn == asn && roa.asn != 0
  }

  function OriginValidation(roas: seq<Roa>, route: Network, asn: nat): RpkiStatus {
    if exists roa :: roa in roas && Matches(roa, route, asn) then Valid
    else if exists roa :: roa in roas && roa.prefix.Contains(route) then Invalid
    else NotFound
  }

  // ---- truncated binary strings and address ranges ----

  lemma Doubled(q: nat, p: nat)
    ensures q * (2 * p) == 2 * (q * p)
  {
  }

  lemma {:induction false} ShiftBounds(n: nat, k: nat)
    ensures Shift(n, k) * Pow2(k) <= n < (Shift(n, k) + 1) * Pow2(k)
  {
    if k > 0 {
      ShiftBounds(n / 2, k - 1);
      var q, p := Shift(n / 2, k - 1), Pow2(k - 1);
      Doubled(q, p);
      Doubled(q + 1, p);
      HalfBounds(n, q * p, (q + 1) * p);
    }
  }

  lemma HalfBounds(n: nat, low: nat, high: nat)
    requires low <= n / 2 < high
    ensures 2 * low <= n < 2 * high
  {
  }

  lemma MulOrder(a: nat, b: nat, p: nat)
    ensures a <= b ==> a * p <= b * p
  {
  }

  lemma ShiftUnique(n: nat, k: nat, q: nat)
    requires q * Pow2(k) <= n < (q + 1) * Pow2(k)
    ensures Shift(n, k) == q
  {
    ShiftBounds(n, k);
    var s := Shift(n, k);
    if s < q {
      MulOrder(s + 1, q, Pow2(k));
    } else if q < s {
      MulOrder(q + 1, s, Pow2(k));
    }
  }

  lemma {:induction false} Pow2Add(a: nat, b: nat)
    ensures Pow2(a + b) == Pow2(a) * Pow2(b)
  {
    if a > 0 {
      Pow2Add(a - 1, b);
      assert a + b - 1 == (a - 1) + b;
      DoubledFirst(Pow2(a - 1), Pow2(b));
    }
  }

  lemma DoubledFirst(x: nat, y: nat)
    ensures (2 * x) * y == 2 * (x * y)
  {
  }

  lemma {:induction false} Pow2Grows(a: nat, b: nat)
    requires a < b
    ensures Pow2(a) < Pow2(b)
    decreases b
  {
    if a < b - 1 {
      Pow2Grows(a, b - 1);
    }
  }

  /** Dropping trailing digits is dividing. */
  lemma {:induction false} BitsTruncated(n: nat, w: nat, k: nat)
    requires k <= w
    ensures Bits(n, w)[..w - k] == Bits(Shift(n, k), w - k)
  {
    if k > 0 {
      BitsTruncated(n / 2, w - 1, k - 1);
      assert Bits(n, w)[..w - k] == Bits(n / 2, w - 1)[..w - k];
    }
  }

  lemma {:induction false} BitsInjective(a: nat, b: nat, w: nat)
    requires a < Pow2(w) && b < Pow2(w) && Bits(a, w) == Bits(b, w)
    ensures a == b
  {
    if w > 0 {
      var x, y := Bits(a, w), Bits(b, w);
      assert x[..w - 1] == Bits(a / 2, w - 1) && y[..w - 1] == Bits(b / 2, w - 1);
      assert x[w - 1] == y[w - 1];
      BitsInjective(a / 2, b / 2, w - 1);
    }
  }

  lemma ShiftIsSmall(n: nat, w: nat, k: nat)
    requires k <= w && n < Pow2(w)
    ensures Shift(n, k) < Pow2(w - k)
  {
    ShiftBounds(n, k);
    Pow2Add(w - k, k);
    if Shift(n, k) >= Pow2(w - k) {
      MulOrder(Pow2(w - k), Shift(n, k), Pow2(k));
    }
  }

  /** The key of a block: its network bits only. */
  function KeyOf(p: Prefix): string
    requires p.length <= Width(p.version)
  {
    Bits(p.first, Width(p.version))[..p.length]
  }

  lemma KeyIsShift(p: Network)
    ensures KeyOf(p) == Bits(Shift(p.first, p.HostBits()), p.length)
    ensures Shift(p.first, p.HostBits()) < Pow2(p.length)
  {
    BitsTruncated(p.first, Width(p.version), p.HostBits());
    ShiftIsSmall(p.first, Width(p.version), p.HostBits());
  }

  lemma AlignedBelow(x: nat, m: nat, t: nat)
    requires x * t < m * t
    ensures (x + 1) * t <= m * t
  {
    if x >= m { MulOrder(m, x, t); }
    MulOrder(x + 1, m, t);
  }

  lemma Associate(x: nat, y: nat, z: nat)
    ensures (x * y) * z == x * (y * z)
  {
  }

  lemma NextMultiple(x: nat, p: nat)
    ensures (x + 1) * p == x * p + p
  {
  }

  lemma ContainedHasSameShift(a: Network, b: Network)
    requires a.Contains(b)
    ensures Shift(b.first, a.HostBits()) == Shift(a.first, a.HostBits())
  {
    var s: nat := a.HostBits();
    var q, p := Shift(a.first, s), Pow2(s);
    NextMultiple(q, p);
    ShiftUnique(b.first, s, q);
  }

  lemma SameShiftIsContained(a: Network, b: Network)
    requires a.version == b.version && a.length <= b.length
    requires Shift(b.first, a.HostBits()) == Shift(a.first, a.HostBits())
    ensures a.Contains(b)
  {
    var s: nat, t: nat := a.HostBits(), b.HostBits();
    ShiftBounds(b.first, s);
    Pow2Add(s - t, t);
    NestedMultiples(Shift(a.first, s), Pow2(s), b.first, Shift(b.first, t), Pow2(t), Pow2(s - t));
  }

  /** A multiple of the smaller size within a block of the larger size, with all of its own block. */
  lemma NestedMultiples(q: nat, p: nat, first: nat, qb: nat, pb: nat, ratio: nat)
    requires p == ratio * pb && first == qb * pb && q * p <= first < (q + 1) * p
    ensures first + pb <= q * p + p
  {
    Associate(q + 1, ratio, pb);
    AlignedBelow(qb, (q + 1) * ratio, pb);
    NextMultiple(qb, pb);
    NextMultiple(q, p);
  }

  lemma LongerIsSmaller(a: Network, b: Network)
    requires a.version == b.version && a.Contains(b)
    ensures a.length <= b.length
  {
    if b.length < a.length {
      Pow2Grows(a.HostBits(), b.HostBits());
    }
  }

  /** One key is a prefix of another exactly when the first block contains the second. */
  lemma KeyPrefixIsContainment(a: Network, b: Network)
    requires a.version == b.version
    ensures KeyOf(a) <= KeyOf(b) <==> a.Contains(b)
  {
    if a.length <= b.length {
      var s: nat := a.HostBits();
      KeyIsShift(a);
      assert KeyOf(b)[..a.length] == Bits(b.first, Width(b.version))[..a.length];
      BitsTruncated(b.first, Width(b.version), s);
      ShiftIsSmall(b.first, Width(b.version), s);
      if KeyOf(a) <= KeyOf(b) {
        assert KeyOf(b)[..a.length] == KeyOf(a);
        BitsInjective(Shift(a.first, s), Shift(b.first, s), a.length);
        SameShiftIsContained(a, b);
      }
      if a.Contains(b) {
        ContainedHasSameShift(a, b);
      }
    } else if a.Contains(b) {
      LongerIsSmaller(a, b);
    }
  }

  // ---- the definition of RFC 6811 in terms of addresses ----

  /** The address has the network bits of the block. */
  predicate InBlock(p: Network, address: nat) {
    Shift(address, p.HostBits()) == Shift(p.first, p.HostBits())
  }

  /** Section 2 of RFC 6811: the network bits of a covering block are the first bits of every address of the other. */
  ghost predicate Covers(a: Network, b: Network) {
    a.version == b.version && forall address: nat | InBlock(b, address) :: InBlock(a, address)
  }

  lemma BlockIsRange(p: Network, address: nat)
    ensures InBlock(p, address) <==> p.first <= address <= p.Last()
  {
    ShiftBounds(address, p.HostBits());
    NextMultiple(Shift(p.first, p.HostBits()), Pow2(p.HostBits()));
    if p.first <= address <= p.Last() {
      ShiftUnique(address, p.HostBits(), Shift(p.first, p.HostBits()));
    }
  }

  lemma ContainsExactly(a: Network, b: Network)
    ensures a.Contains(b) <==> Covers(a, b)
  {
    if Covers(a, b) {
      BlockIsRange(b, b.first);
      BlockIsRange(b, b.Last());
      BlockIsRange(a, b.first);
      BlockIsRange(a, b.Last());
    }
    if a.Contains(b) {
      forall address: nat | InBlock(b, address)
        ensures InBlock(a, address)
      {
        BlockIsRange(a, address);
        BlockIsRange(b, address);
      }
    }
  }

  /** Valid when some ROA covers the route, allows its length and has its origin, which is not AS 0;
      not found when none covers it; invalid otherwise. */
  lemma ValidationMeans(roas: seq<Roa>, route: Network, asn: nat)
    ensures OriginValidation(roas, route, asn) == Valid
        <==> exists roa :: && roa in roas && Covers(roa.prefix, route) && route.length <= roa.maxLength
                           && roa.asn == asn && asn != 0
    ensures OriginValidation(roas, route, asn) == NotFound <==> forall roa | roa in roas :: !Covers(roa.prefix, route)
  {
    forall roa | roa in roas
      ensures roa.prefix.Contains(route) <==> Covers(roa.prefix, route)
    {
      ContainsExactly(roa.prefix, route);
    }
    if roa :| roa in roas && Covers(roa.prefix, route) && route.length <= roa.maxLength && roa.asn == asn && asn != 0 {
      assert Matches(roa, route, asn);
    }
  }

  // ---- addresses as bytes ----

  function Value(bytes: seq<nat>): nat {
    if bytes == [] then 0 else 256 * Value(bytes[..|bytes| - 1]) + bytes[|bytes| - 1]
  }

  /** The pregenerated eight digits of each byte, joined. */
  function JoinedBits(bytes: seq<nat>): (s: string)
    ensures |s| == 8 * |bytes|
  {
    if bytes == [] then "" else JoinedBits(bytes[..|bytes| - 1]) + Bits(bytes[|bytes| - 1], 8)
  }

  lemma {:induction false} BitsSplit(n: nat, low: nat, w: nat, k: nat)
    requires low < Pow2(k)
    ensures Bits(n * Pow2(k) + low, w + k) == Bits(n, w) + Bits(low, k)
  {
    if k > 0 {
      var p := Pow2(k - 1);
      assert n * (2 * p) == 2 * (n * p);
      assert (n * Pow2(k) + low) / 2 == n * p + low / 2;
      BitsSplit(n, low / 2, w, k - 1);
    } else {
      assert n * 1 + 0 == n;
      assert Bits(n, w) + "" == Bits(n, w);
    }
  }

  lemma ByteIsEightBits()
    ensures Pow2(8) == 256
  {
    assert Pow2(4) == 16;
  }

  /** Joining the digits of the bytes gives the digits of the whole address, for 4 and for 16 bytes. */
  lemma {:induction false} JoinedIsBits(bytes: seq<nat>)
    requires forall b | b in bytes :: b < 256
    ensures JoinedBits(bytes) == Bits(Value(bytes), 8 * |bytes|)
  {
    if bytes != [] {
      var init, last := bytes[..|bytes| - 1], bytes[|bytes| - 1];
      assert last in bytes;
      forall b | b in init
        ensures b < 256
      {
        assert b in bytes;
      }
      JoinedIsBits(init);
      JoinedNext(bytes);
    }
  }

  lemma JoinedNext(bytes: seq<nat>)
    requires bytes != [] && bytes[|bytes| - 1] < 256
    requires var init := bytes[..|bytes| - 1]; JoinedBits(init) == Bits(Value(init), 8 * |init|)
    ensures JoinedBits(bytes) == Bits(Value(bytes), 8 * |bytes|)
  {
    var n := |bytes| - 1;
    OneMoreByte(Value(bytes[..n]), bytes[n], 8 * n);
  }

  lemma OneMoreByte(v: nat, last: nat, w: nat)
    requires last < 256
    ensures Bits(256 * v + last, w + 8) == Bits(v, w) + Bits(last, 8)
  {
    ByteIsEightBits();
    BitsSplit(v, last, w, 8);
    assert v * Pow2(8) == 256 * v;
  }

  // ---- the validators ----

  /** The version of an address, and its digits with the trailing "0" the source adds. */
  function IpToBinaryStr(ip: seq<nat>): (Version, string) {
    (if |ip| == 16 then V6 else V4, JoinedBits(ip) + "0")
  }

  predicate IsAddress(ip: seq<nat>) {
    (|ip| == 4 || |ip| == 16) && forall b | b in ip :: b < 256
  }

  function BlockOf(ip: seq<nat>, length: nat): Prefix {
    Prefix(IpToBinaryStr(ip).0, Value(ip), length)
  }

  lemma TruncatedIsKey(ip: seq<nat>, length: nat)
    requires IsAddress(ip) && length <= 8 * |ip|
    ensures IpToBinaryStr(ip).1[..length] == KeyOf(BlockOf(ip, length))
  {
    JoinedIsBits(ip);
  }

  /** A ROA as a database row. */
  datatype RoaRow = RoaRow(ip: seq<nat>, length: nat, asn: nat, maxLength: nat)

  predicate RowOk(row: RoaRow) {
    IsAddress(row.ip) && BlockOf(row.ip, row.length).WellFormed()
  }

  function RoaOf(row: RoaRow): Roa
    requires RowOk(row)
  {
    Roa(BlockOf(row.ip, row.length), row.asn, row.maxLength)
  }

  type Trie = map<string, seq<Roa>>

  /** The trie holds exactly the ROAs of one address family, each under its key. */
  predicate TrieOk(trie: Trie, roas: seq<Roa>, v: Version) {
    && (forall k | k in trie :: trie[k] != [])
    && (forall k, r | k in trie && r in trie[k] :: r in roas && r.prefix.version == v && KeyOf(r.prefix) == k)
    && (forall r | r in roas && r.prefix.version == v :: KeyOf(r.prefix) in trie && r in trie[KeyOf(r.prefix)])
  }

  function Insert(trie: Trie, key: string, roa: Roa): Trie {
    trie[key := (if key in trie then trie[key] else []) + [roa]]
  }

  lemma InsertOk(trie: Trie, roas: seq<Roa>, v: Version, roa: Roa)
    requires TrieOk(trie, roas, v)
    ensures TrieOk(if roa.prefix.version == v then Insert(trie, KeyOf(roa.prefix), roa) else trie, roas + [roa], v)
  {
    assert forall r :: r in roas + [roa] <==> r in roas || r == roa;
    if roa.prefix.version == v {
      var key := KeyOf(roa.prefix);
      var trie' := Insert(trie, key, roa);
      forall k, r | k in trie' && r in trie'[k]
        ensures r in roas + [roa] && r.prefix.version == v && KeyOf(r.prefix) == k
      {
        if k != key || (key in trie && r in trie[key]) { assert r in trie[k]; }
      }
    }
  }

  /** The items whose key is a prefix of the query, shortest first. */
  function PrefixItems(trie: Trie, query: string, upTo: nat): seq<(string, seq<Roa>)>
    requires upTo <= |query|
  {
    (if upTo == 0 then [] else PrefixItems(trie, query, upTo - 1))
    + (if query[..upTo] in trie then [(query[..upTo], trie[query[..upTo]])] else [])
  }

  lemma {:induction false} PrefixItemsAre(trie: Trie, query: string, upTo: nat)
    requires upTo <= |query|
    ensures forall item ::
      item in PrefixItems(trie, query, upTo)
      <==> item.0 in trie && item.1 == trie[item.0] && |item.0| <= upTo && item.0 <= query
  {
    if upTo > 0 { PrefixItemsAre(trie, query, upTo - 1); }
    forall key: string | key <= query && |key| == upTo
      ensures key == query[..upTo]
    {
    }
  }

  predicate CoveredBy(items: seq<(string, seq<Roa>)>, roa: Roa) {
    exists item :: item in items && roa in item.1
  }

  /** The items found for a route hold exactly the ROAs whose block contains it. */
  lemma ItemsAreCovering(trie: Trie, roas: seq<Roa>, route: Network, roa: Roa)
    requires TrieOk(trie, roas, route.version)
    ensures var items := PrefixItems(trie, KeyOf(route), route.length);
            && (CoveredBy(items, roa) <==> roa in roas && roa.prefix.Contains(route))
  {
    var items := PrefixItems(trie, KeyOf(route), route.length);
    PrefixItemsAre(trie, KeyOf(route), route.length);
    if roa in roas && roa.prefix.version == route.version {
      KeyPrefixIsContainment(roa.prefix, route);
      if roa.prefix.Contains(route) {
        var item := (KeyOf(roa.prefix), trie[KeyOf(roa.prefix)]);
        assert item in items && roa in item.1;
      }
    }
  }

  /** A covering ROA that allows the length, for the origin, which is not AS 0. */
  predicate Fits(roa: Roa, prefixLength: nat, asn: nat) {
    roa.asn != 0 && roa.asn == asn && prefixLength <= roa.maxLength
  }

  method AnyMatch(covering: seq<(string, seq<Roa>)>, prefixLength: nat, asn: nat) returns (found: bool)
    ensures found <==> exists roa :: CoveredBy(covering, roa) && Fits(roa, prefixLength, asn)
  {
    for i := 0 to |covering|
      invariant forall item, roa | item in covering[..i] && roa in item.1 :: !Fits(roa, prefixLength, asn)
    {
      var value := covering[i].1;
      for j := 0 to |value|
        invariant forall roa | roa in value[..j] :: !Fits(roa, prefixLength, asn)
      {
        var roa := value[j];
        if roa.asn != 0 && roa.asn == asn && prefixLength <= roa.maxLength {
          assert covering[i] in covering && roa in covering[i].1;
          assert CoveredBy(covering, roa) && Fits(roa, prefixLength, asn);
          return true;
        }
      }
    }
    assert covering[..|covering|] == covering;
    found := false;
  }

  class BulkRouteROAValidator {
    const excludedSources: set<string>
    var roaTree4: Trie
    var roaTree6: Trie
    ghost var roas: seq<Roa>

    ghost predicate Valid()
      reads this
    {
      TrieOk(roaTree4, roas, V4) && TrieOk(roaTree6, roas, V6)
    }

    constructor FromRoas(excludedSources: set<string>, roas: seq<Roa>)
      ensures Valid() && this.roas == roas && this.excludedSources == excludedSources
    {
      this.excludedSources := excludedSources;
      roaTree4, roaTree6, this.roas := map[], map[], [];
      new;
      for i := 0 to |roas|
        invariant Valid() && this.roas == roas[..i]
      {
        Add(KeyOf(roas[i].prefix), roas[i]);
      }
    }

    constructor FromDatabase(excludedSources: set<string>, rows: seq<RoaRow>)
      requires forall row | row in rows :: RowOk(row)
      ensures Valid() && this.excludedSources == excludedSources
      ensures |roas| == |rows| && forall i | 0 <= i < |rows| :: roas[i] == RoaOf(rows[i])
      ensures forall i | 0 <= i < |rows| ::
                && roas[i].asn == rows[i].asn && roas[i].maxLength == rows[i].maxLength
                && roas[i].prefix.length == rows[i].length && roas[i].prefix.first == Value(rows[i].ip)
                && (roas[i].prefix.version == V6 <==> |rows[i].ip| == 16)
    {
      this.excludedSources := excludedSources;
      roaTree4, roaTree6, roas := map[], map[], [];
      new;
      for i := 0 to |rows|
        invariant Valid() && |roas| == i && forall j | 0 <= j < i :: roas[j] == RoaOf(rows[j])
      {
        assert rows[i] in rows;
        TruncatedIsKey(rows[i].ip, rows[i].length);
        Add(IpToBinaryStr(rows[i].ip).1[..rows[i].length], RoaOf(rows[i]));
      }
    }

    method Add(key: string, roa: Roa)
      requires Valid() && key == KeyOf(roa.prefix)
      modifies this
      ensures Valid() && roas == old(roas) + [roa]
    {
      InsertOk(roaTree4, roas, V4, roa);
      InsertOk(roaTree6, roas, V6, roa);
      if roa.prefix.version == V6 {
        roaTree6 := Insert(roaTree6, key, roa);
      } else {
        roaTree4 := Insert(roaTree4, key, roa);
      }
      roas := roas + [roa];
    }

    method ValidateRoute(ip: seq<nat>, prefixLength: nat, asn: nat, source: string) returns (status: RpkiStatus)
      requires Valid() && IsAddress(ip) && BlockOf(ip, prefixLength).WellFormed()
      ensures status == if source in excludedSources then NotFound else OriginValidation(roas, BlockOf(ip, prefixLength), asn)
    {
      if source in excludedSources { return NotFound; }
      ghost var route: Network := BlockOf(ip, prefixLength);
      var (version, ipBinStr) := IpToBinaryStr(ip);
      var roaTree := if version == V6 then roaTree6 else roaTree4;
      TruncatedIsKey(ip, prefixLength);
      var covering := PrefixItems(roaTree, ipBinStr[..prefixLength], prefixLength);
      forall roa {
        ItemsAreCovering(roaTree, roas, route, roa);
      }
      if covering == [] {
        assert forall roa :: !CoveredBy(covering, roa);
        return NotFound;
      }
      var matching := AnyMatch(covering, prefixLength, asn);
      if matching {
        assert exists roa :: CoveredBy(covering, roa) && Fits(roa, prefixLength, asn);
        return RpkiStatus.Valid;
      }
      PrefixItemsAre(roaTree, KeyOf(route), prefixLength);
      var first := covering[0];
      assert first in covering && first.1[0] in first.1 && CoveredBy(covering, first.1[0]);
      assert forall roa | roa in roas && Matches(roa, route, asn) :: CoveredBy(covering, roa) && Fits(roa, prefixLength, asn);
      assert forall roa | roa in roas && roa.prefix.Contains(route) :: CoveredBy(covering, roa);
      status := Invalid;
    }
  }

  class SingleRouteROAValidator {
    const excludedSources: set<string>
    const roas: seq<Roa>

    constructor (excludedSources: set<string>, roas: seq<Roa>)
      ensures this.excludedSources == excludedSources && this.roas == roas
    {
      this.excludedSources, this.roas := excludedSources, roas;
    }

    /** The rows of the database query: the less specific and exact ROAs. */
    method Covering(route: Network) returns (rows: seq<Roa>)
      ensures forall roa :: roa in rows <==> roa in roas && roa.prefix.Contains(route)
    {
      rows := [];
      for i := 0 to |roas|
        invariant forall roa :: roa in rows <==> roa in roas[..i] && roa.prefix.Contains(route)
      {
        assert forall roa :: roa in roas[..i + 1] <==> roa in roas[..i] || roa == roas[i];
        if roas[i].prefix.Contains(route) {
          rows := rows + [roas[i]];
        }
      }
      assert roas[..|roas|] == roas;
    }

    method ValidateRoute(route: Network, asn: nat, source: string) returns (status: RpkiStatus)
      ensures status == if source in excludedSources then NotFound else OriginValidation(roas, route, asn)
    {
      if source in excludedSources { return NotFound; }
      var covering := Covering(route);
      if covering == [] {
        assert forall roa :: roa !in covering;
        return NotFound;
      }
      for i := 0 to |covering|
        invariant forall j | 0 <= j < i :: !Matches(covering[j], route, asn)
      {
        var roa := covering[i];
        assert roa in covering;
        if roa.asn != 0 && roa.asn == asn && route.length <= roa.maxLength {
          assert Matches(roa, route, asn);
          return Valid;
        }
      }
      assert covering[0] in covering;
      status := Invalid;
    }
  }
}
