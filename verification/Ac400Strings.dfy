/** `ac400_get_string`: a space-padded register string into a NUL-terminated buffer. */
module Strings {
  import opened Words
  import opened Layout
  import opened Device

  const SPACE: int := 0x20
  const NUL: int := 0

  function Stripped(s: seq<int>): (t: seq<int>)
    ensures |t| <= |s| && t == s[..|t|]
    ensures t != [] ==> t[|t| - 1] != 0x20
    ensures forall k :: |t| <= k < |s| ==> s[k] == 0x20
  {
    if s == [] then [] else if s[|s| - 1] == SPACE then Stripped(s[..|s| - 1]) else s
  }

  /** What C reads from a buffer: the characters before the first NUL. */
  function CString(buf: seq<int>): seq<int> {
    if buf == [] || buf[0] == NUL then [] else [buf[0]] + CString(buf[1..])
  }

  lemma {:induction false} CStringIs(buf: seq<int>, t: seq<int>)
    requires |t| < |buf| && t == buf[..|t|] && buf[|t|] == NUL && NUL !in t
    ensures CString(buf) == t
  {
    if t != [] {
      assert t[0] == buf[0];
      assert t[1..] == buf[1..][..|t| - 1];
      CStringIs(buf[1..], t[1..]);
    }
  }

  lemma {:induction false} StrippedPadding(s: seq<int>, n: nat)
    ensures Stripped(s + seq(n, i => SPACE)) == Stripped(s)
  {
    var p := s + seq(n, i => SPACE);
    if n > 0 {
      assert p[..|p| - 1] == s + seq(n - 1, i => SPACE);
      StrippedPadding(s, n - 1);
    } else {
      assert p == s;
    }
  }

  /** The low bytes of consecutive registers. */
  function LowByte(w: Word): int {
    Num(w[..8])
  }

  function RegisterBytes(bank: Bank, m: nat, addr: nat, n: nat): seq<int> {
    seq(n, i requires 0 <= i < n => LowByte(ReadReg(bank, Reg(m, addr + i))))
  }

  /** Each is the register's number modulo 256. */
  lemma BytesAreRemainders(bank: Bank, m: nat, addr: nat, n: nat, i: nat)
    requires i < n
    ensures |RegisterBytes(bank, m, addr, n)| == n
    ensures RegisterBytes(bank, m, addr, n)[i] == Num(ReadReg(bank, Reg(m, addr + i))) % 256
  {
    var w := ReadReg(bank, Reg(m, addr + i));
    assert RegisterBytes(bank, m, addr, n)[i] == LowByte(w);
    LowByteIs(w);
  }

  lemma LowByteIs(w: Word)
    ensures LowByte(w) == Num(w) % 256
  {
    LowDigits(w, 8);
    assert Pow2(4) == 16;
    assert Pow2(8) == 256;
  }

  datatype StringStatus = StringOk | StringFailed | BufferOverflow

  /** The buffer holds the string without its trailing spaces, then NUL, then what is left of them. */
  ghost predicate Shows(buf: seq<int>, s: seq<int>)
    requires |s| < |buf|
  {
    var t := Stripped(s);
    buf[..|t|] == t && buf[|t|] == 0 && forall k :: |t| < k < |s| ==> buf[k] == 0x20
  }

  lemma CutShows(buf: seq<int>, s: seq<int>, n: nat)
    requires n <= |s| < |buf| && forall k :: 0 <= k < |s| ==> buf[k] == s[k]
    requires (n > 0 ==> s[n - 1] != SPACE) && forall k :: n <= k < |s| ==> s[k] == SPACE
    ensures Shows(buf[n := NUL], s)
  {
    StrippedIs(s, n);
    assert buf[n := NUL][..n] == s[..n];
  }

  /** `count` is the size of the caller's buffer on entry and what is needed on return. */
  method GetString(d: Driver, m: nat, buf: array<int>, count: nat, addr: nat, len: nat)
      returns (st: StringStatus, needed: nat)
    requires count <= buf.Length
    modifies d`tick, buf
    ensures needed == len + 1
    ensures st == BufferOverflow <==> count <= len
    ensures st == BufferOverflow ==> buf[..] == old(buf[..])
    ensures forall k :: len < k < buf.Length ==> buf[k] == old(buf[k])
    ensures st == StringFailed ==>
              d.world.fails(d.tick) && CopiedPart(buf[..], old(buf[..]), RegisterBytes(d.bank, m, addr, len))
    ensures st == StringOk ==> Shows(buf[..], RegisterBytes(d.bank, m, addr, len))
  {
    needed := len + 1;
    if count <= len {
      return BufferOverflow, needed;
    }
    ghost var s := RegisterBytes(d.bank, m, addr, len);
    var ok, last, cp := ReadCharacters(d, m, buf, addr, len, s);
    if !ok {
      return StringFailed, needed;
    }
    CutShows(buf[..], s, last + 1);
    ghost var b := buf[..];
    buf[last + 1] := NUL;
    assert buf[..] == b[last + 1 := NUL];
    st := StringOk;
  }

  /** The loop: one register a character. `last` is where the last one that is no space went, `cp`
      how many have been stored. */
  method ReadCharacters(d: Driver, m: nat, buf: array<int>, addr: nat, len: nat, ghost s: seq<int>)
      returns (ok: bool, last: int, cp: nat)
    requires len < buf.Length && |s| == len
    requires forall k :: 0 <= k < len ==> s[k] == LowByte(ReadReg(d.bank, Reg(m, addr + k)))
    modifies d`tick, buf
    ensures CopiedTo(buf[..], old(buf[..]), s, cp, last)
    ensures if ok then cp == len else cp < len && d.world.fails(d.tick)
  {
    ghost var was := buf[..];
    cp, last := 0, -1;
    while cp < len
      invariant CopiedTo(buf[..], was, s, cp, last)
    {
      var c;
      ok, c := ReadCharacter(d, m, addr + cp);
      if !ok {
        return;
      }
      last := StoreCharacter(buf, cp, c, last, was, s);
      cp := cp + 1;
    }
    ok := true;
  }

  /** The buffer after the reading stopped short. */
  ghost predicate CopiedPart(b: seq<int>, was: seq<int>, s: seq<int>) {
    exists cp: nat, last: int :: cp < |s| && CopiedTo(b, was, s, cp, last)
  }

  method StoreCharacter(buf: array<int>, cp: nat, c: int, last: int, ghost was: seq<int>, ghost s: seq<int>)
      returns (last': int)
    requires CopiedTo(buf[..], was, s, cp, last) && cp < |s| && c == s[cp]
    modifies buf
    ensures CopiedTo(buf[..], was, s, cp + 1, last')
  {
    last' := if c != SPACE then cp else last;
    buf[cp] := c;
  }

  /** The buffer after so many characters; the rest of it is as it was. */
  ghost predicate CopiedTo(b: seq<int>, was: seq<int>, s: seq<int>, cp: nat, last: int) {
    && cp <= |s| < |b| == |was| && -1 <= last < cp
    && (forall k :: 0 <= k < |b| ==> b[k] == if k < cp then s[k] else was[k])
    && (last >= 0 ==> s[last] != SPACE) && forall k :: last < k < cp ==> s[k] == SPACE
  }

  method ReadCharacter(d: Driver, m: nat, addr: nat) returns (ok: bool, c: int)
    modifies d`tick
    ensures ok == !d.world.fails(d.tick)
    ensures ok ==> c == LowByte(ReadReg(d.bank, Reg(m, addr)))
  {
    var w;
    ok, w := d.MdioRead(m, addr);
    c := LowByte(w);
  }

  lemma {:induction false} StrippedIs(s: seq<int>, n: nat)
    requires n <= |s| && (n > 0 ==> s[n - 1] != SPACE) && forall k :: n <= k < |s| ==> s[k] == SPACE
    ensures Stripped(s) == s[..n]
    decreases |s|
  {
    if n < |s| {
      StrippedIs(s[..|s| - 1], n);
      assert s[..|s| - 1][..n] == s[..n];
    } else {
      assert s[..n] == s;
    }
  }

  /** What a string written space-padded reads back as: itself, exactly if it has no trailing space
      and no NUL; the blank field reads as the empty string. */
  lemma PaddedReadsBackIff(v: seq<int>, n: nat, buf: seq<int>)
    requires |v| + n < |buf| && Shows(buf, v + seq(n, i => SPACE))
    ensures CString(buf) == v <==> 0 !in v && (v != [] ==> v[|v| - 1] != 0x20)
  {
    StrippedPadding(v, n);
    CStringHasNoNul(buf);
    if NUL !in v {
      CStringIs(buf, Stripped(v));
    }
  }

  lemma {:induction false} CStringHasNoNul(buf: seq<int>)
    ensures NUL !in CString(buf)
  {
    if buf != [] && buf[0] != NUL {
      CStringHasNoNul(buf[1..]);
    }
  }
}
