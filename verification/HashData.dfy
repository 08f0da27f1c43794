/** The hash chained over a Secret's data: controllers/vaultsecretutils/hash.go.
    SHA-256 is the parameter `sha`, of which nothing is known but the size of its results. */
module HashData {
  import opened Basics

  type Sha = Bytes -> Bytes

  /** All that is assumed of SHA-256: its digests are 32 bytes long. */
  ghost predicate Digests(sha: Sha) {
    forall x :: |sha(x)| == 32
  }

  function Zeros(): (z: Bytes)
    ensures |z| == 32 && forall i | 0 <= i < 32 :: z[i] == 0
  {
    seq(32, _ => 0)
  }

  /** Go compares strings byte by byte. */
  predicate Less(a: Bytes, b: Bytes) {
    b != [] && (a == [] || a[0] < b[0] || (a[0] == b[0] && Less(a[1..], b[1..])))
  }

  lemma LessIsTransitive(a: Bytes, b: Bytes, c: Bytes)
    requires Less(a, b) && Less(b, c)
    ensures Less(a, c)
  {}

  lemma LessIsTotal(a: Bytes, b: Bytes)
    ensures Less(a, b) || a == b || Less(b, a)
  {
    if a != [] && b != [] && a[0] == b[0] {
      LessIsTotal(a[1..], b[1..]);
      assert a == [a[0]] + a[1..] && b == [b[0]] + b[1..];
    }
  }

  lemma LessIsIrreflexive(a: Bytes)
    ensures !Less(a, a)
  {}

  /** That is: `a` is a proper prefix of `b`, or has the smaller byte where they first differ. */
  lemma {:induction false} LessIff(a: Bytes, b: Bytes)
    ensures Less(a, b) <==>
      a < b || exists i | 0 <= i < |a| && i < |b| :: a[..i] == b[..i] && a[i] < b[i]
  {
    if a != [] && b != [] && a[0] == b[0] {
      LessIff(a[1..], b[1..]);
      assert a == [a[0]] + a[1..] && b == [b[0]] + b[1..];
      if i :| 0 <= i < |a| && i < |b| && a[..i] == b[..i] && a[i] < b[i] {
        assert i > 0 && a[1..][..i - 1] == a[..i][1..] == b[..i][1..] == b[1..][..i - 1];
        assert a[1..][i - 1] == a[i] && b[1..][i - 1] == b[i];
      }
      if i :| 0 <= i < |a[1..]| && i < |b[1..]| && a[1..][..i] == b[1..][..i] && a[1..][i] < b[1..][i] {
        assert a[..i + 1] == [a[0]] + a[1..][..i] && b[..i + 1] == [b[0]] + b[1..][..i];
        assert a[i + 1] < b[i + 1];
      }
    } else if a != [] && b != [] && a[0] < b[0] {
      assert a[..0] == b[..0];
    }
  }

  predicate Ascending(keys: seq<Bytes>) {
    forall i, j | 0 <= i < j < |keys| :: Less(keys[i], keys[j])
  }

  /** A set has only one ascending enumeration. */
  lemma {:induction false} AscendingIsUnique(a: seq<Bytes>, b: seq<Bytes>)
    requires Ascending(a) && Ascending(b) && Elements(a) == Elements(b)
    ensures a == b
  {
    assert forall i | 0 <= i < |a| :: a[i] in Elements(a);
    assert forall i | 0 <= i < |b| :: b[i] in Elements(b);
    if a != [] {
      FirstsAgree(a, b);
      TailKeys(a);
      TailKeys(b);
      AscendingIsUnique(a[1..], b[1..]);
      assert a == [a[0]] + a[1..] && b == [b[0]] + b[1..];
    }
  }

  lemma FirstsAgree(a: seq<Bytes>, b: seq<Bytes>)
    requires Ascending(a) && Ascending(b) && a != [] && b != [] && a[0] in b && b[0] in a
    ensures a[0] == b[0]
  {
    var i :| 0 <= i < |a| && a[i] == b[0];
    var j :| 0 <= j < |b| && b[j] == a[0];
    if i > 0 && j > 0 {
      LessIsTransitive(a[0], b[0], a[0]);
      LessIsIrreflexive(a[0]);
    }
  }

  lemma TailKeys(a: seq<Bytes>)
    requires Ascending(a) && a != []
    ensures Ascending(a[1..]) && Elements(a[1..]) == Elements(a) - {a[0]}
  {
    forall k | k in Elements(a) && k != a[0] ensures k in a[1..] {
      var i :| 0 <= i < |a| && a[i] == k;
      assert a[1..][i - 1] == k;
    }
    forall k | k in a[1..] ensures k != a[0] {
      LessIsIrreflexive(k);
    }
  }

  // ---- The chain ----

  function HashHashes(sha: Sha, l: Bytes, r: Bytes): Bytes {
    sha(l + r)
  }

  function Node(sha: Sha, key: Bytes, value: Bytes): Bytes {
    HashHashes(sha, sha(key), sha(value))
  }

  predicate InData(keys: seq<Bytes>, data: map<Bytes, Bytes>) {
    forall k <- keys :: k in data
  }

  function LastNode(sha: Sha, keys: seq<Bytes>, data: map<Bytes, Bytes>): Bytes
    requires keys != [] && keys[|keys| - 1] in data
  {
    Node(sha, keys[|keys| - 1], data[keys[|keys| - 1]])
  }

  /** The root after the keys, in the order given. */
  function Chain(sha: Sha, keys: seq<Bytes>, data: map<Bytes, Bytes>): Bytes
    requires InData(keys, data)
  {
    if keys == [] then Zeros()
    else HashHashes(sha, Chain(sha, keys[..|keys| - 1], data), LastNode(sha, keys, data))
  }

  // ---- Lower-case hexadecimal ----

  function HexDigit(n: nat): char
    requires n < 16
  {
    "0123456789abcdef"[n]
  }

  function EncodeHex(b: Bytes): string {
    if b == [] then ""
    else [HexDigit(b[0] as nat / 16), HexDigit(b[0] as nat % 16)] + EncodeHex(b[1..])
  }

  lemma HexDigitIsInjective(m: nat, n: nat)
    requires m < 16 && n < 16 && HexDigit(m) == HexDigit(n)
    ensures m == n
  {
    var digits := "0123456789abcdef";
    assert forall i, j | 0 <= i < j < 16 :: digits[i] != digits[j];
  }

  lemma {:induction false} HexIsInjective(a: Bytes, b: Bytes)
    requires EncodeHex(a) == EncodeHex(b)
    ensures a == b
  {
    if a != [] && b != [] {
      var s, t := EncodeHex(a), EncodeHex(b);
      assert s[2..] == EncodeHex(a[1..]) && t[2..] == EncodeHex(b[1..]);
      HexDigitIsInjective(a[0] as nat / 16, b[0] as nat / 16);
      HexDigitIsInjective(a[0] as nat % 16, b[0] as nat % 16);
      HexIsInjective(a[1..], b[1..]);
      assert a == [a[0]] + a[1..] && b == [b[0]] + b[1..];
    }
  }

  /** Two digits a byte, the high one first; digits above nine are lower-case letters. */
  lemma {:induction false} HexAt(b: Bytes, i: nat)
    requires i < |b|
    ensures |EncodeHex(b)| == 2 * |b|
    ensures IsDigit(EncodeHex(b)[2 * i], b[i] as nat / 16) && IsDigit(EncodeHex(b)[2 * i + 1], b[i] as nat % 16)
  {
    var tail := EncodeHex(b[1..]);
    assert EncodeHex(b) == [HexDigit(b[0] as nat / 16), HexDigit(b[0] as nat % 16)] + tail;
    if i == 0 {
      DigitOf(b[0] as nat / 16);
      DigitOf(b[0] as nat % 16);
      if |b| > 1 {
        HexAt(b[1..], 0);
      }
    } else {
      HexAt(b[1..], i - 1);
      assert EncodeHex(b)[2 * i] == tail[2 * (i - 1)] && EncodeHex(b)[2 * i + 1] == tail[2 * (i - 1) + 1];
      assert b[1..][i - 1] == b[i];
    }
  }

  predicate IsDigit(c: char, n: nat)
    requires n < 16
  {
    c as int == if n < 10 then '0' as int + n else 'a' as int + n - 10
  }

  lemma DigitOf(n: nat)
    requires n < 16
    ensures IsDigit(HexDigit(n), n)
  {
    var digits := "0123456789abcdef";
    assert forall i: nat | i < 16 :: IsDigit(digits[i], i);
  }

  predicate IsLeast(m: Bytes, keys: set<Bytes>) {
    m in keys && forall k <- keys :: k != m ==> Less(m, k)
  }

  lemma LeastExists(keys: set<Bytes>)
    requires keys != {}
    ensures exists m :: IsLeast(m, keys)
  {
    var k :| k in keys;
    if keys - {k} == {} {
      assert keys == {k};
      assert IsLeast(k, keys);
    } else {
      LeastExists(keys - {k});
      var m :| IsLeast(m, keys - {k});
      LessIsTotal(k, m);
      var least := if Less(k, m) then k else m;
      forall l | l in keys && l != least ensures Less(least, l) {
        if least == k && l != m {
          LessIsTransitive(k, m, l);
        }
      }
      assert IsLeast(least, keys);
    }
  }

  /** The ascending enumeration of a finite set of keys. */
  ghost function Sorted(keys: set<Bytes>): (s: seq<Bytes>)
    ensures Ascending(s) && Elements(s) == keys
  {
    if keys == {} then []
    else
      LeastExists(keys);
      var m :| IsLeast(m, keys);
      var rest := Sorted(keys - {m});
      assert forall k <- rest :: k in Elements(rest);
      assert Elements([m] + rest) == {m} + Elements(rest);
      [m] + rest
  }

  /** The root of data, before it is encoded. */
  ghost function Root(sha: Sha, data: map<Bytes, Bytes>): Bytes {
    Chain(sha, Sorted(data.Keys), data)
  }

  /** HashData of the operator, as a function of the data alone. */
  ghost function Hash(sha: Sha, data: map<Bytes, Bytes>): string {
    EncodeHex(Root(sha, data))
  }

  lemma SortedExtends(keys: set<Bytes>, k: Bytes)
    requires forall l <- keys :: Less(l, k)
    ensures Sorted(keys + {k}) == Sorted(keys) + [k]
  {
    LessIsIrreflexive(k);
    var s := Sorted(keys);
    assert forall l <- s :: l in Elements(s);
    assert Elements(s + [k]) == Elements(s) + {k};
    AscendingIsUnique(Sorted(keys + {k}), s + [k]);
  }

  lemma RootOfNothing(sha: Sha)
    ensures Root(sha, map[]) == Zeros()
  {
    var none: map<Bytes, Bytes> := map[];
    assert none.Keys == {};
  }

  /** The root of no data is all zeros, and an entry whose key comes last is hashed onto the root of the
      others: the key first, then the value. */
  lemma RootExtends(sha: Sha, data: map<Bytes, Bytes>, k: Bytes, v: Bytes)
    requires forall l <- data.Keys :: Less(l, k)
    ensures Root(sha, map[]) == Zeros()
    ensures Root(sha, data[k := v]) == sha(Root(sha, data) + sha(sha(k) + sha(v)))
  {
    RootOfNothing(sha);
    LessIsIrreflexive(k);
    SortedExtends(data.Keys, k);
    var keys, more := Sorted(data.Keys), data[k := v];
    assert more.Keys == data.Keys + {k};
    assert forall l <- keys :: l in Elements(keys);
    ChainIgnoresOthers(sha, keys, data, more);
    assert (keys + [k])[..|keys|] == keys;
    assert Chain(sha, keys + [k], more) == sha(Root(sha, data) + sha(sha(k) + sha(v)));
  }

  lemma {:induction false} ChainIgnoresOthers(sha: Sha, keys: seq<Bytes>, d: map<Bytes, Bytes>, e: map<Bytes, Bytes>)
    requires forall k <- keys :: k in d && k in e && d[k] == e[k]
    ensures Chain(sha, keys, d) == Chain(sha, keys, e)
  {
    if keys != [] {
      assert keys[|keys| - 1] in keys;
      ChainIgnoresOthers(sha, keys[..|keys| - 1], d, e);
    }
  }

  // ---- Equal hashes of different data ----

  /** What breaks SHA-256: two inputs with one digest, or an input with the all-zero digest. */
  datatype Break = Collision(x: Bytes, y: Bytes) | ZeroPreimage(x: Bytes)

  predicate Breaks(sha: Sha, b: Break) {
    match b
    case Collision(x, y) => x != y && sha(x) == sha(y)
    case ZeroPreimage(x) => sha(x) == Zeros()
  }

  lemma PairsDiffer(a: Bytes, b: Bytes, c: Bytes, d: Bytes)
    requires |a| == |c| == 32 && (a != c || b != d)
    ensures a + b != c + d
  {
    assert (a + b)[..32] == a && (a + b)[32..] == b;
    assert (c + d)[..32] == c && (c + d)[32..] == d;
  }

  lemma BreakOfNodes(sha: Sha, k: Bytes, v: Bytes, l: Bytes, w: Bytes) returns (b: Break)
    requires Digests(sha) && Node(sha, k, v) == Node(sha, l, w) && (k != l || v != w)
    ensures Breaks(sha, b)
  {
    if sha(k) != sha(l) || sha(v) != sha(w) {
      PairsDiffer(sha(k), sha(v), sha(l), sha(w));
      b := Collision(sha(k) + sha(v), sha(l) + sha(w));
    } else {
      b := if k != l then Collision(k, l) else Collision(v, w);
    }
  }

  /** Walks two chains with the same root back from their ends and finds where SHA-256 broke. */
  lemma {:induction false} BreakOfChains(sha: Sha, ks: seq<Bytes>, d: map<Bytes, Bytes>,
                                         ls: seq<Bytes>, e: map<Bytes, Bytes>)
    returns (b: Break)
    requires Digests(sha) && InData(ks, d) && InData(ls, e) && Chain(sha, ks, d) == Chain(sha, ls, e)
    requires ks != ls || exists k <- ks :: d[k] != e[k]
    ensures Breaks(sha, b)
  {
    if ks == [] {
      b := ZeroPreimage(Chain(sha, ls[..|ls| - 1], e) + LastNode(sha, ls, e));
    } else if ls == [] {
      b := ZeroPreimage(Chain(sha, ks[..|ks| - 1], d) + LastNode(sha, ks, d));
    } else {
      var k, l := ks[|ks| - 1], ls[|ls| - 1];
      var ks', ls' := ks[..|ks| - 1], ls[..|ls| - 1];
      assert ks == ks' + [k] && ls == ls' + [l];
      if Chain(sha, ks', d) != Chain(sha, ls', e) || LastNode(sha, ks, d) != LastNode(sha, ls, e) {
        PairsDiffer(Chain(sha, ks', d), LastNode(sha, ks, d), Chain(sha, ls', e), LastNode(sha, ls, e));
        b := Collision(Chain(sha, ks', d) + LastNode(sha, ks, d), Chain(sha, ls', e) + LastNode(sha, ls, e));
      } else if k != l || d[k] != e[l] {
        b := BreakOfNodes(sha, k, d[k], l, e[l]);
      } else {
        b := BreakOfChains(sha, ks', d, ls', e);
      }
    }
  }

  /** Two different maps with the same hash, whatever their sizes, exhibit a break of SHA-256. */
  lemma BreakOfHashes(sha: Sha, d: map<Bytes, Bytes>, e: map<Bytes, Bytes>) returns (b: Break)
    requires Digests(sha) && Hash(sha, d) == Hash(sha, e) && d != e
    ensures Breaks(sha, b)
  {
    var ks, ls := Sorted(d.Keys), Sorted(e.Keys);
    HexIsInjective(Chain(sha, ks, d), Chain(sha, ls, e));
    if ks == ls {
      assert d.Keys == Elements(ks) == e.Keys;
      var k :| k in d && d[k] != e[k];
      assert k in Elements(ks);
    }
    b := BreakOfChains(sha, ks, d, ls, e);
  }

  // ---- The operator's computation ----

  /** sort.Strings, by insertion. */
  method SortStrings(keys: seq<Bytes>) returns (sorted: seq<Bytes>)
    requires Distinct(keys)
    ensures Ascending(sorted) && Elements(sorted) == Elements(keys)
  {
    sorted := [];
    for i := 0 to |keys|
      invariant Ascending(sorted) && Elements(sorted) == Elements(keys[..i])
    {
      var k := keys[i];
      assert k !in Elements(keys[..i]);
      sorted := Insert(sorted, k);
      assert keys[..i + 1] == keys[..i] + [k];
      assert Elements(keys[..i + 1]) == Elements(keys[..i]) + {k};
    }
    assert keys[..|keys|] == keys;
  }

  method Insert(s: seq<Bytes>, k: Bytes) returns (r: seq<Bytes>)
    requires Ascending(s) && k !in Elements(s)
    ensures Ascending(r) && Elements(r) == Elements(s) + {k}
  {
    var n := 0;
    while n < |s| && Less(s[n], k)
      invariant n <= |s| && forall i | 0 <= i < n :: Less(s[i], k)
    {
      n := n + 1;
    }
    r := s[..n] + [k] + s[n..];
    forall i | n <= i < |s| ensures Less(k, s[i]) {
      assert s[n] in Elements(s);
      LessIsTotal(k, s[n]);
      if i > n {
        LessIsTransitive(k, s[n], s[i]);
      }
    }
    assert s == s[..n] + s[n..];
  }

  /** The keys, in whatever order the map hands them out. */
  method CollectKeys(data: map<Bytes, Bytes>) returns (keys: seq<Bytes>)
    ensures Elements(keys) == data.Keys
    ensures Distinct(keys)
  {
    keys := [];
    var remaining := data.Keys;
    while remaining != {}
      invariant remaining <= data.Keys && Elements(keys) == data.Keys - remaining
      invariant Distinct(keys)
      decreases remaining
    {
      var k :| k in remaining;
      assert forall l <- keys :: l in Elements(keys);
      assert Elements(keys + [k]) == Elements(keys) + {k};
      keys := keys + [k];
      remaining := remaining - {k};
    }
  }

  method ChainUp(sha: Sha, keys: seq<Bytes>, data: map<Bytes, Bytes>) returns (root: Bytes)
    requires InData(keys, data)
    ensures root == Chain(sha, keys, data)
  {
    root := Zeros();
    for i := 0 to |keys|
      invariant root == Chain(sha, keys[..i], data)
    {
      var key, value := sha(keys[i]), sha(data[keys[i]]);
      var node := HashHashes(sha, key, value);
      assert keys[..i + 1][..i] == keys[..i];
      root := HashHashes(sha, root, node);
    }
    assert keys[..|keys|] == keys;
  }

  /** Whatever the order of the map, the hash is a function of the data. */
  method Compute(sha: Sha, data: map<Bytes, Bytes>) returns (hash: string)
    ensures hash == Hash(sha, data)
  {
    var keys := CollectKeys(data);
    keys := SortStrings(keys);
    AscendingIsUnique(keys, Sorted(data.Keys));
    var root := ChainUp(sha, keys, data);
    hash := EncodeHex(root);
  }
}
