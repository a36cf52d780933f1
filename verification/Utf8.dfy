/**
  UTF-8 validation. The specification is section 3 of RFC 3629 read as an encoder:
  a byte string is well-formed when it is the encoding of some sequence of Unicode scalar values.
  */
module Utf8 {
  import opened Prelude

  predicate IsScalar(cp: int) {
    0 <= cp <= 0x10FFFF && !(0xD800 <= cp <= 0xDFFF)
  }

  type Scalar = cp: int | 0 <= cp <= 0x10FFFF && !(0xD800 <= cp <= 0xDFFF)

  /** The number of octets of a code point, and its octets, by the table of section 3 of RFC 3629. */
  function EncodeScalar(cp: Scalar): (octets: seq<byte>)
    ensures 1 <= |octets| <= 4
  {
    var n: int := cp;
    if n < 0x80 then [n]
    else if n < 0x800 then [0xC0 + n / 64, 0x80 + n % 64]
    else if n < 0x10000 then [0xE0 + n / 4096, 0x80 + n / 64 % 64, 0x80 + n % 64]
    else [0xF0 + n / 262144, 0x80 + n / 4096 % 64, 0x80 + n / 64 % 64, 0x80 + n % 64]
  }

  function EncodeScalars(cps: seq<Scalar>): seq<byte> {
    if cps == [] then [] else EncodeScalar(cps[0]) + EncodeScalars(cps[1..])
  }

  /** The bytes are the encoding of some sequence of scalar values. */
  ghost predicate WellFormed(bytes: seq<byte>) {
    exists cps: seq<Scalar> :: EncodeScalars(cps) == bytes
  }

  // ---------------------------------------------------------------- the code is prefix-free

  /** The scalar value that four octets or fewer stand for, from its own encoding. */
  function DecodeOctets(octets: seq<byte>): int
    requires 1 <= |octets| <= 4
  {
    if |octets| == 1 then octets[0]
    else if |octets| == 2 then (octets[0] as int - 0xC0) * 64 + (octets[1] as int - 0x80)
    else if |octets| == 3 then
      (octets[0] as int - 0xE0) * 4096 + (octets[1] as int - 0x80) * 64 + (octets[2] as int - 0x80)
    else
      (octets[0] as int - 0xF0) * 262144 + (octets[1] as int - 0x80) * 4096
      + (octets[2] as int - 0x80) * 64 + (octets[3] as int - 0x80)
  }

  /** The first octet alone announces the length. */
  function LengthFromFirst(first: byte): nat {
    if first < 0x80 then 1 else if first < 0xE0 then 2 else if first < 0xF0 then 3 else 4
  }

  lemma EncodeScalarShape(cp: Scalar)
    ensures |EncodeScalar(cp)| == LengthFromFirst(EncodeScalar(cp)[0])
    ensures DecodeOctets(EncodeScalar(cp)) == cp
  {
    var n: int := cp;
    var a, b, c := n / 64, n / 4096, n / 262144;
    assert a / 64 == b && b / 64 == c;
    assert n == a * 64 + n % 64 && a == b * 64 + a % 64 && b == c * 64 + b % 64;
  }

  lemma ScalarPrefixFree(a: Scalar, x: seq<byte>, b: Scalar, y: seq<byte>)
    requires EncodeScalar(a) + x == EncodeScalar(b) + y
    ensures a == b && x == y
  {
    EncodeScalarShape(a);
    EncodeScalarShape(b);
    var s := EncodeScalar(a) + x;
    assert s[0] == EncodeScalar(a)[0] && s[0] == EncodeScalar(b)[0];
    assert EncodeScalar(a) == s[..|EncodeScalar(a)|] == EncodeScalar(b);
    assert x == s[|EncodeScalar(a)|..] == y;
  }

  /** A byte string encodes at most one sequence of scalar values. */
  lemma {:induction false} DecodingUnique(p: seq<Scalar>, q: seq<Scalar>)
    requires EncodeScalars(p) == EncodeScalars(q)
    ensures p == q
  {
    if p == [] || q == [] {
    } else {
      ScalarPrefixFree(p[0], EncodeScalars(p[1..]), q[0], EncodeScalars(q[1..]));
      DecodingUnique(p[1..], q[1..]);
      assert p == [p[0]] + p[1..] && q == [q[0]] + q[1..];
    }
  }

  lemma {:induction false} EncodeScalarsConcat(p: seq<Scalar>, q: seq<Scalar>)
    ensures EncodeScalars(p + q) == EncodeScalars(p) + EncodeScalars(q)
  {
    if p == [] {
      assert p + q == q;
    } else {
      assert (p + q)[1..] == p[1..] + q;
      EncodeScalarsConcat(p[1..], q);
    }
  }

  lemma ScalarThenRest(cp: Scalar, rest: seq<byte>)
    ensures WellFormed(EncodeScalar(cp) + rest) <==> WellFormed(rest)
  {
    if WellFormed(rest) {
      var cps: seq<Scalar> :| EncodeScalars(cps) == rest;
      assert ([cp] + cps)[1..] == cps;
      assert EncodeScalars([cp] + cps) == EncodeScalar(cp) + rest;
    }
    if WellFormed(EncodeScalar(cp) + rest) {
      var cps: seq<Scalar> :| EncodeScalars(cps) == EncodeScalar(cp) + rest;
      ScalarPrefixFree(cps[0], EncodeScalars(cps[1..]), cp, rest);
      assert EncodeScalars(cps[1..]) == rest;
    }
  }

  lemma {:induction false} PrefixThenRest(cps: seq<Scalar>, rest: seq<byte>)
    ensures WellFormed(EncodeScalars(cps) + rest) <==> WellFormed(rest)
  {
    if cps == [] {
      assert EncodeScalars(cps) + rest == rest;
    } else {
      var tail := EncodeScalars(cps[1..]) + rest;
      assert EncodeScalars(cps) + rest == EncodeScalar(cps[0]) + tail;
      ScalarThenRest(cps[0], tail);
      PrefixThenRest(cps[1..], rest);
    }
  }

  /** Concatenation: after a well-formed prefix, the whole is well-formed exactly when the rest is. */
  lemma WellFormedConcat(a: seq<byte>, b: seq<byte>)
    requires WellFormed(a)
    ensures WellFormed(a + b) <==> WellFormed(b)
  {
    var cps: seq<Scalar> :| EncodeScalars(cps) == a;
    PrefixThenRest(cps, b);
  }

  // ---------------------------------------------------------------- the validator

  /** `extra` and the payload bits of the first octet, by its high bits; None for an octet that starts nothing. */
  function Lead(first: byte): Option<(nat, nat)> {
    var b: int := first;
    if b / 32 == 6 then Some((1, b % 32))
    else if b / 16 == 14 then Some((2, b % 16))
    else if b / 8 == 30 then Some((3, b % 8))
    else None
  }

  /** The checks against overlong forms, surrogates and values past U+10FFFF. */
  predicate InRange(extra: nat, cp: int) {
    && !(extra == 1 && cp < 0x80)
    && !(extra == 2 && cp < 0x800)
    && !(extra == 3 && cp < 0x10000)
    && !(cp > 0x10FFFF)
    && !(0xD800 <= cp <= 0xDFFF)
  }

  predicate IsContinuation(b: byte) {
    b / 64 == 2
  }

  /** The code point read from the lead bits and the first `n` continuation octets of `s`. */
  function Accumulated(s: seq<byte>, lead: nat, n: nat): (cp: nat)
    requires n < |s|
  {
    if n == 0 then lead else Accumulated(s, lead, n - 1) * 64 + s[n] as int % 64
  }

  /** `s` starts with a multi-octet form that the validator accepts. */
  predicate AcceptsMultibyte(s: seq<byte>) {
    && s != []
    && Lead(s[0]).Some?
    && Lead(s[0]).value.0 < |s|
    && (forall i :: 1 <= i <= Lead(s[0]).value.0 ==> IsContinuation(s[i]))
    && InRange(Lead(s[0]).value.0, Accumulated(s, Lead(s[0]).value.1, Lead(s[0]).value.0))
  }

  /** Base-64 digits of a number determine it, and are its quotients and remainders. */
  lemma Digits(hi: nat, lo: nat)
    requires lo < 64
    ensures (hi * 64 + lo) / 64 == hi && (hi * 64 + lo) % 64 == lo
  {
  }

  lemma Quotients(n: nat)
    ensures n / 4096 == n / 64 / 64 && n / 262144 == n / 64 / 64 / 64
  {
  }

  /** An octet with its high bits fixed is those bits plus its low bits. */
  lemma LowBits(b: int, width: int, high: int)
    requires width > 0 && b / width == high
    ensures b == high * width + b % width
  {
  }

  lemma EncodesTwo(lead: nat, c1: nat)
    requires lead < 32 && c1 < 64 && 0x80 <= lead * 64 + c1
    ensures EncodeScalar(lead * 64 + c1) == [0xC0 + lead, 0x80 + c1]
  {
  }

  lemma EncodesThree(lead: nat, c1: nat, c2: nat)
    requires lead < 16 && c1 < 64 && c2 < 64
    requires var n := (lead * 64 + c1) * 64 + c2; 0x800 <= n && IsScalar(n)
    ensures EncodeScalar((lead * 64 + c1) * 64 + c2) == [0xE0 + lead, 0x80 + c1, 0x80 + c2]
  {
    var one := lead * 64 + c1;
    Quotients(one * 64 + c2);
    Digits(one, c2);
    Digits(lead, c1);
  }

  lemma EncodesFour(lead: nat, c1: nat, c2: nat, c3: nat)
    requires lead < 8 && c1 < 64 && c2 < 64 && c3 < 64
    requires var n := ((lead * 64 + c1) * 64 + c2) * 64 + c3; 0x10000 <= n && IsScalar(n)
    ensures EncodeScalar(((lead * 64 + c1) * 64 + c2) * 64 + c3) == [0xF0 + lead, 0x80 + c1, 0x80 + c2, 0x80 + c3]
  {
    var one := lead * 64 + c1;
    var two := one * 64 + c2;
    Quotients(two * 64 + c3);
    Digits(two, c3);
    Digits(one, c2);
    Digits(lead, c1);
  }

  lemma AcceptedTwo(s: seq<byte>)
    requires AcceptsMultibyte(s) && Lead(s[0]).value.0 == 1
    ensures var cp := Accumulated(s, Lead(s[0]).value.1, 1);
            IsScalar(cp) && EncodeScalar(cp) == s[..2]
  {
    hide EncodeScalar;
    var lead := Lead(s[0]).value.1;
    assert Accumulated(s, lead, 0) == lead;
    assert IsContinuation(s[1]);
    LowBits(s[0], 32, 6);
    LowBits(s[1], 64, 2);
    EncodesTwo(lead, s[1] as int % 64);
  }

  lemma AcceptedThree(s: seq<byte>)
    requires AcceptsMultibyte(s) && Lead(s[0]).value.0 == 2
    ensures var cp := Accumulated(s, Lead(s[0]).value.1, 2);
            IsScalar(cp) && EncodeScalar(cp) == s[..3]
  {
    hide EncodeScalar;
    var lead := Lead(s[0]).value.1;
    var c1: int, c2: int := s[1] as int % 64, s[2] as int % 64;
    assert Accumulated(s, lead, 0) == lead;
    assert Accumulated(s, lead, 2) == (lead * 64 + c1) * 64 + c2;
    assert IsContinuation(s[1]) && IsContinuation(s[2]);
    LowBits(s[0], 16, 14);
    LowBits(s[1], 64, 2);
    LowBits(s[2], 64, 2);
    EncodesThree(lead, c1, c2);
  }

  lemma AcceptedFour(s: seq<byte>)
    requires AcceptsMultibyte(s) && Lead(s[0]).value.0 == 3
    ensures var cp := Accumulated(s, Lead(s[0]).value.1, 3);
            IsScalar(cp) && EncodeScalar(cp) == s[..4]
  {
    hide EncodeScalar;
    var lead := Lead(s[0]).value.1;
    var c1: int, c2: int, c3: int := s[1] as int % 64, s[2] as int % 64, s[3] as int % 64;
    assert Accumulated(s, lead, 0) == lead;
    assert Accumulated(s, lead, 2) == (lead * 64 + c1) * 64 + c2;
    assert Accumulated(s, lead, 3) == ((lead * 64 + c1) * 64 + c2) * 64 + c3;
    assert IsContinuation(s[1]) && IsContinuation(s[2]) && IsContinuation(s[3]);
    LowBits(s[0], 8, 30);
    LowBits(s[1], 64, 2);
    LowBits(s[2], 64, 2);
    LowBits(s[3], 64, 2);
    EncodesFour(lead, c1, c2, c3);
  }

  lemma AcceptedIsScalar(s: seq<byte>)
    requires AcceptsMultibyte(s)
    ensures var (extra, lead) := Lead(s[0]).value;
            var cp := Accumulated(s, lead, extra);
            IsScalar(cp) && EncodeScalar(cp) == s[..extra + 1]
  {
    hide EncodeScalar, Accumulated, IsScalar;
    var extra := Lead(s[0]).value.0;
    if extra == 1 {
      AcceptedTwo(s);
    } else if extra == 2 {
      AcceptedThree(s);
    } else {
      AcceptedFour(s);
    }
  }

  /** The octets of a multi-octet encoding, read back. */
  lemma OctetsOfScalar(n: nat, high: nat, low: nat)
    requires n == high * 64 + low && low < 64
    ensures high == n / 64 && low == n % 64
    ensures IsContinuation(0x80 + low) && (0x80 + low) % 64 == low
  {
  }

  lemma MultibyteIsAccepted(cp: Scalar, s: seq<byte>)
    requires cp >= 0x80 && EncodeScalar(cp) <= s
    ensures AcceptsMultibyte(s)
  {
    var n: int := cp;
    var e := EncodeScalar(cp);
    Quotients(n);
    var a, b, c := n / 64, n / 64 / 64, n / 64 / 64 / 64;
    OctetsOfScalar(n, a, n % 64);
    OctetsOfScalar(a, b, a % 64);
    OctetsOfScalar(b, c, b % 64);
    assert forall i :: 0 <= i < |e| ==> e[i] == s[i];
    if n < 0x800 {
      AcceptsTwo(n, s);
    } else if n < 0x10000 {
      AcceptsThree(n, s);
    } else {
      AcceptsFour(n, s);
    }
  }

  lemma AcceptsTwo(n: int, s: seq<byte>)
    requires 0x80 <= n < 0x800 && |s| >= 2
    requires s[0] == 0xC0 + n / 64 && s[1] == 0x80 + n % 64
    ensures AcceptsMultibyte(s)
  {
    assert Lead(s[0]) == Some((1, n / 64));
    assert Accumulated(s, n / 64, 0) == n / 64;
    assert Accumulated(s, n / 64, 1) == n;
  }

  lemma AcceptsThree(n: int, s: seq<byte>)
    requires 0x800 <= n < 0x10000 && IsScalar(n) && |s| >= 3
    requires s[0] == 0xE0 + n / 4096 && s[1] == 0x80 + n / 64 % 64 && s[2] == 0x80 + n % 64
    ensures AcceptsMultibyte(s)
  {
    var b := n / 4096;
    Quotients(n);
    assert Lead(s[0]) == Some((2, b));
    assert Accumulated(s, b, 0) == b;
    assert Accumulated(s, b, 1) == n / 64;
    assert Accumulated(s, b, 2) == n;
  }

  lemma AcceptsFour(n: int, s: seq<byte>)
    requires 0x10000 <= n && IsScalar(n) && |s| >= 4
    requires s[0] == 0xF0 + n / 262144 && s[1] == 0x80 + n / 4096 % 64
    requires s[2] == 0x80 + n / 64 % 64 && s[3] == 0x80 + n % 64
    ensures AcceptsMultibyte(s)
  {
    var c := n / 262144;
    Quotients(n);
    assert Lead(s[0]) == Some((3, c));
    assert Accumulated(s, c, 0) == c;
    assert Accumulated(s, c, 1) == n / 4096;
    assert Accumulated(s, c, 2) == n / 64;
    assert Accumulated(s, c, 3) == n;
  }

  /** Where the validator gives up, no sequence of scalar values continues. */
  lemma RejectedIsIllFormed(s: seq<byte>)
    requires s != [] && s[0] >= 0x80 && !AcceptsMultibyte(s)
    ensures !WellFormed(s)
  {
    forall cps: seq<Scalar> | EncodeScalars(cps) == s
      ensures false
    {
      var cp := cps[0];
      assert EncodeScalar(cp) <= s;
      assert s[0] == EncodeScalar(cp)[0];
      EncodeScalarShape(cp);
      MultibyteIsAccepted(cp, s);
    }
  }

  /** The inner loop and the range checks of `is_valid_utf8`, at position `p`. */
  method ReadMultibyte(bytes: seq<byte>, p: nat) returns (ok: bool, extra: nat, codePoint: nat)
    requires p < |bytes|
    ensures ok <==> AcceptsMultibyte(bytes[p..])
    ensures ok ==> p + extra < |bytes| && IsScalar(codePoint)
                   && bytes[p..p + extra + 1] == EncodeScalar(codePoint)
  {
    ghost var rest := bytes[p..];
    extra, codePoint := 0, 0;
    var lead := Lead(bytes[p]);
    if lead.None? {
      return false, extra, codePoint;
    }
    extra, codePoint := lead.value.0, lead.value.1;
    if p + extra >= |bytes| {
      return false, extra, codePoint;
    }
    var i: nat := 1;
    while i <= extra
      invariant 1 <= i <= extra + 1
      invariant forall k :: 1 <= k < i ==> IsContinuation(rest[k])
      invariant codePoint == Accumulated(rest, lead.value.1, i - 1)
    {
      var cont := bytes[p + i];
      assert cont == rest[i];
      if !IsContinuation(cont) {
        return false, extra, codePoint;
      }
      codePoint := codePoint * 64 + cont as int % 64;
      i := i + 1;
    }
    ok := InRange(extra, codePoint);
    if ok {
      AcceptedIsScalar(rest);
      assert rest[..extra + 1] == bytes[p..p + extra + 1];
    }
  }

  /** `is_valid_utf8` decides well-formedness exactly. */
  method IsValidUtf8(bytes: seq<byte>) returns (valid: bool)
    ensures valid <==> WellFormed(bytes)
  {
    var p: nat := 0;
    ghost var seen: seq<Scalar> := [];
    while p < |bytes|
      invariant p <= |bytes|
      invariant bytes[..p] == EncodeScalars(seen)
    {
      ghost var cp: Scalar;
      if bytes[p] < 0x80 {
        cp := bytes[p];
        AppendScalar(seen, cp, bytes, p);
        p := p + 1;
      } else {
        var ok, extra, codePoint := ReadMultibyte(bytes, p);
        if !ok {
          RejectedIsIllFormed(bytes[p..]);
          PrefixThenRest(seen, bytes[p..]);
          assert bytes == EncodeScalars(seen) + bytes[p..];
          return false;
        }
        cp := codePoint;
        AppendScalar(seen, cp, bytes, p);
        p := p + extra + 1;
      }
      seen := seen + [cp];
    }
    assert bytes[..p] == bytes;
    valid := true;
  }

  lemma AppendScalar(seen: seq<Scalar>, cp: Scalar, bytes: seq<byte>, p: nat)
    requires p + |EncodeScalar(cp)| <= |bytes|
    requires bytes[..p] == EncodeScalars(seen)
    requires bytes[p..p + |EncodeScalar(cp)|] == EncodeScalar(cp)
    ensures bytes[..p + |EncodeScalar(cp)|] == EncodeScalars(seen + [cp])
  {
    EncodeScalarsConcat(seen, [cp]);
    assert [cp][1..] == [];
    assert EncodeScalars([cp]) == EncodeScalar(cp) + [];
    assert bytes[..p + |EncodeScalar(cp)|] == bytes[..p] + bytes[p..p + |EncodeScalar(cp)|];
  }
}
