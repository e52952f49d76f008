/** Identifiers, accounts and the hash function.

    SHA3-512 is modelled as a free constructor: two digests are equal exactly when the
    inputs fed to the hasher are equal.  Inputs are sequences of tokens: single bytes,
    and the 64-byte values (identifiers or other digests) that the source feeds whole. */
module Crypto {

  const U8_LIMIT: nat := 0x100
  const U32_LIMIT: nat := 0x1_0000_0000
  const U64_LIMIT: nat := 0x1_0000_0000_0000_0000
  const U64_MAX: nat := U64_LIMIT - 1
  const U128_MAX: nat := U64_LIMIT * U64_LIMIT - 1

  type U8 = n: nat | n < 0x100
  type U64 = n: nat | n < 0x1_0000_0000_0000_0000

  /** A 64-byte identifier (account, program, validator or block), as the number its
      bytes spell in big-endian order, so that the byte order of the source is `<`. */
  type Address = nat

  /** The all-zero identifier. */
  const ZERO_ADDRESS: Address := 0

  datatype Token = Octet(b: U8) | Id(a: Address) | Sub(d: Digest)
  datatype Digest = ZeroDigest | Hashed(input: seq<Token>)

  datatype Account = Account(lamports: U64, data: seq<U8>, owner: Address, executable: bool, rentEpoch: U64)

  datatype Option<+T> = None | Some(value: T)
  datatype Result<+T, +E> = Ok(value: T) | Err(error: E)

  function SaturatingAdd(x: nat, y: nat): (r: nat) {
    if x + y <= U64_MAX then x + y else U64_MAX
  }

  function SaturatingSub(x: nat, y: nat): (r: nat) {
    if y <= x then x - y else 0
  }

  // ---------------------------------------------------------------------------------
  // Little-endian integers and the field-by-field account encoding

  function Pow256(w: nat): (r: nat)
    ensures r > 0
  {
    if w == 0 then 1 else 256 * Pow256(w - 1)
  }

  function LittleEndian(n: nat, w: nat): (r: seq<Token>)
    ensures |r| == w
    decreases w
  {
    if w == 0 then [] else [Octet(n % 256)] + LittleEndian(n / 256, w - 1)
  }

  lemma {:induction false} LittleEndianInjective(m: nat, n: nat, w: nat)
    requires m < Pow256(w) && n < Pow256(w)
    requires LittleEndian(m, w) == LittleEndian(n, w)
    ensures m == n
  {
    if w == 0 {
    } else {
      var a, b := LittleEndian(m, w), LittleEndian(n, w);
      assert a[0] == Octet(m % 256) && b[0] == Octet(n % 256);
      assert a[1..] == LittleEndian(m / 256, w - 1) && b[1..] == LittleEndian(n / 256, w - 1);
      LittleEndianInjective(m / 256, n / 256, w - 1);
    }
  }

  /** The number that bytes spell, the lowest first. */
  function Spelled(bytes: seq<Token>): (n: nat)
    requires forall i :: 0 <= i < |bytes| ==> bytes[i].Octet?
  {
    if |bytes| == 0 then 0 else bytes[0].b + 256 * Spelled(bytes[1..])
  }

  ghost predicate Spells(bytes: seq<Token>, n: nat) {
    (forall i :: 0 <= i < |bytes| ==> bytes[i].Octet?) && Spelled(bytes) == n
  }

  /** The bytes of a number that fits spell it. */
  lemma {:induction false} LittleEndianSpells(n: nat, w: nat)
    requires n < Pow256(w)
    ensures Spells(LittleEndian(n, w), n)
    decreases w
  {
    LittleEndianOctets(n, w);
    if w == 0 {
    } else {
      LittleEndianSpells(n / 256, w - 1);
      assert LittleEndian(n, w)[1..] == LittleEndian(n / 256, w - 1);
    }
  }

  function Octets(data: seq<U8>): (r: seq<Token>)
    ensures |r| == |data|
    ensures forall i :: 0 <= i < |data| ==> r[i] == Octet(data[i])
  {
    seq(|data|, i requires 0 <= i < |data| => Octet(data[i]))
  }

  /** What the source feeds a hasher for one account: address, lamports, data length as
      a 32-bit value, data, owner, executable flag, rent epoch. */
  function AccountTokens(address: Address, account: Account): (r: seq<Token>)
    ensures |r| == 23 + |account.data|
  {
    [Id(address)]
    + LittleEndian(account.lamports, 8)
    + LittleEndian(|account.data| % U32_LIMIT, 4)
    + Octets(account.data)
    + [Id(account.owner)]
    + [Octet(if account.executable then 1 else 0)]
    + LittleEndian(account.rentEpoch, 8)
  }

  lemma {:induction false} SplitEqual(a: seq<Token>, b: seq<Token>, c: seq<Token>, d: seq<Token>)
    requires a + b == c + d && |a| == |c|
    ensures a == c && b == d
  {
    assert a == (a + b)[..|a|] && b == (a + b)[|a|..];
    assert c == (c + d)[..|c|] && d == (c + d)[|c|..];
  }

  /** The encoding loses nothing, for every account, although the length field is
      truncated to 32 bits: the total length gives the length of the data back. */
  lemma {:induction false} AccountTokensInjective(a: Address, x: Account, b: Address, y: Account)
    requires AccountTokens(a, x) == AccountTokens(b, y)
    ensures a == b && x == y
  {
    var l1, l2 := LittleEndian(x.lamports, 8), LittleEndian(y.lamports, 8);
    var n1, n2 := LittleEndian(|x.data| % U32_LIMIT, 4), LittleEndian(|y.data| % U32_LIMIT, 4);
    var e1, e2 := [Octet(if x.executable then 1 else 0)], [Octet(if y.executable then 1 else 0)];
    var r1, r2 := LittleEndian(x.rentEpoch, 8), LittleEndian(y.rentEpoch, 8);
    assert |x.data| == |y.data|;
    SplitEqual([Id(a)] + l1 + n1 + Octets(x.data) + [Id(x.owner)] + e1, r1,
               [Id(b)] + l2 + n2 + Octets(y.data) + [Id(y.owner)] + e2, r2);
    SplitEqual([Id(a)] + l1 + n1 + Octets(x.data) + [Id(x.owner)], e1,
        [Id(b)] + l2 + n2 + Octets(y.data) + [Id(y.owner)], e2);
    SplitEqual([Id(a)] + l1 + n1 + Octets(x.data), [Id(x.owner)], [Id(b)] + l2 + n2 + Octets(y.data), [Id(y.owner)]);
    SplitEqual([Id(a)] + l1 + n1, Octets(x.data), [Id(b)] + l2 + n2, Octets(y.data));
    SplitEqual([Id(a)] + l1, n1, [Id(b)] + l2, n2);
    SplitEqual([Id(a)], l1, [Id(b)], l2);
    assert [Id(a)][0] == [Id(b)][0] && [Id(x.owner)][0] == [Id(y.owner)][0] && e1[0] == e2[0];
    Pow256Of8();
    LittleEndianInjective(x.lamports, y.lamports, 8);
    LittleEndianInjective(x.rentEpoch, y.rentEpoch, 8);
    OctetsInjective(x.data, y.data);
  }

  lemma {:induction false} EightBytesSpell(n: U64)
    ensures Spells(LittleEndian(n, 8), n)
  {
    hide Spells, LittleEndian;
    Pow256Of8();
    LittleEndianSpells(n, 8);
  }

  lemma {:induction false} Slices(x: Token, a: seq<Token>, b: seq<Token>, c: seq<Token>, y: Token, z: Token,
      d: seq<Token>)
    requires |a| == 8 && |b| == 4 && |d| == 8
    ensures var t, n := [x] + a + b + c + [y] + [z] + d, |c|;
            && |t| == 23 + n && t[0] == x && t[1..9] == a && t[9..13] == b && t[13..13 + n] == c
            && t[13 + n] == y && t[14 + n] == z && t[15 + n..23 + n] == d
  {
  }

  /** Where each field of an account stands, and what it says there. */
  lemma {:induction false} AccountLayout(address: Address, account: Account)
    ensures var t, n := AccountTokens(address, account), |account.data|;
            && t[0] == Id(address) && t[13 + n] == Id(account.owner)
            && Spells(t[1..9], account.lamports) && Spells(t[9..13], n % U32_LIMIT)
            && t[13..13 + n] == Octets(account.data)
            && t[14 + n] == Octet(if account.executable then 1 else 0)
            && Spells(t[15 + n..23 + n], account.rentEpoch)
  {
    var n := |account.data|;
    var a, b := LittleEndian(account.lamports, 8), LittleEndian(n % U32_LIMIT, 4);
    var c, d := Octets(account.data), LittleEndian(account.rentEpoch, 8);
    hide LittleEndian, Octets, Spells;
    EightBytesSpell(account.lamports);
    EightBytesSpell(account.rentEpoch);
    assert Pow256(4) == U32_LIMIT by { assert Pow256(2) == 0x1_0000; }
    LittleEndianSpells(n % U32_LIMIT, 4);
    Slices(Id(address), a, b, c, Id(account.owner), Octet(if account.executable then 1 else 0), d);
  }

  /** Identifiers stand only in the first and the owner's place. */
  lemma {:induction false} WhereIdsAre(address: Address, account: Account, k: nat)
    requires k < 23 + |account.data|
    ensures AccountTokens(address, account)[k].Id? <==> k == 0 || k == 13 + |account.data|
  {
    var n := |account.data|;
    var a, b := LittleEndian(account.lamports, 8), LittleEndian(n % U32_LIMIT, 4);
    var c, d := Octets(account.data), LittleEndian(account.rentEpoch, 8);
    LittleEndianOctets(account.lamports, 8);
    LittleEndianOctets(n % U32_LIMIT, 4);
    LittleEndianOctets(account.rentEpoch, 8);
    hide LittleEndian, Octets;
    var t := AccountTokens(address, account);
    assert t[k] == if k == 0 then Id(address)
                   else if k < 9 then a[k - 1]
                   else if k < 13 then b[k - 9]
                   else if k < 13 + n then c[k - 13]
                   else if k == 13 + n then Id(account.owner)
                   else if k == 14 + n then Octet(if account.executable then 1 else 0)
                   else d[k - 15 - n];
  }

  lemma {:induction false} LittleEndianOctets(n: nat, w: nat)
    ensures forall i :: 0 <= i < w ==> LittleEndian(n, w)[i].Octet?
    decreases w
  {
    if w == 0 {
    } else {
      LittleEndianOctets(n / 256, w - 1);
    }
  }

  /** So the last account of a stream can be read off its end, wherever it begins. */
  lemma {:induction false} LastAccount(p: seq<Token>, a: Address, x: Account, q: seq<Token>, b: Address, y: Account)
    requires p + AccountTokens(a, x) == q + AccountTokens(b, y)
    ensures p == q && a == b && x == y
  {
    var s, t := AccountTokens(a, x), AccountTokens(b, y);
    hide AccountTokens;
    SameLength(p, a, x, q, b, y);
    SplitEqual(p, s, q, t);
    AccountTokensInjective(a, x, b, y);
  }

  lemma {:induction false} SameLength(p: seq<Token>, a: Address, x: Account, q: seq<Token>, b: Address, y: Account)
    requires p + AccountTokens(a, x) == q + AccountTokens(b, y)
    ensures |p| == |q|
  {
    var s, t := AccountTokens(a, x), AccountTokens(b, y);
    hide AccountTokens;
    WhereIdsAre(a, x, 0);
    WhereIdsAre(b, y, 0);
    if |p| > |q| {
      var k := |p| - |q|;
      assert (p + s)[|p|] == s[0] && (q + t)[|p|] == t[k];
      WhereIdsAre(b, y, k);
    }
    if |q| > |p| {
      var k := |q| - |p|;
      assert (q + t)[|q|] == t[0] && (p + s)[|q|] == s[k];
      WhereIdsAre(a, x, k);
    }
  }

  lemma {:induction false} OctetsInjective(x: seq<U8>, y: seq<U8>)
    requires Octets(x) == Octets(y)
    ensures x == y
  {
    assert |x| == |Octets(x)| == |y|;
    forall i | 0 <= i < |x| ensures x[i] == y[i] {
      assert Octets(x)[i] == Octets(y)[i];
    }
  }

  lemma {:induction false} Pow256Of8()
    ensures Pow256(8) == U64_LIMIT
  {
    assert Pow256(1) == 256;
    assert Pow256(2) == 0x1_0000;
    assert Pow256(4) == 0x1_0000_0000;
    assert Pow256(6) == 0x1_0000_0000_0000;
  }
}
