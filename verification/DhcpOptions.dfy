/** DHCP options: code, length, data, one after the other, up to an END option
    (RFC 2132, section 2).
  */
module DhcpOptions {
  import opened Bytes
  import opened Trees

  const END: Byte := 255
  const PAD: Byte := 0
  const OPTIONS: nat := 308  // bytes behind the magic cookie

  datatype Tlv = Tlv(code: Byte, data: seq<Byte>)

  predicate TlvOk(o: Tlv) {
    o.code != PAD && o.code != END && |o.data| < 256
  }

  function EncodeTlv(o: Tlv): (r: seq<Byte>)
    requires TlvOk(o)
    ensures |r| == 2 + |o.data|
  {
    [o.code, |o.data| as Byte] + o.data
  }

  function Encode(opts: seq<Tlv>): (r: seq<Byte>)
    requires forall i :: 0 <= i < |opts| ==> TlvOk(opts[i])
  {
    if opts == [] then [] else assert TlvOk(opts[0]); EncodeTlv(opts[0]) + Encode(opts[1..])
  }

  /** The data of the first option with the code. */
  function Lookup(opts: seq<Tlv>, code: Byte): Option<seq<Byte>> {
    if opts == [] then None
    else if opts[0].code == code then Some(opts[0].data)
    else Lookup(opts[1..], code)
  }

  lemma {:induction false} LookupAt(opts: seq<Tlv>, k: nat)
    requires k < |opts| && forall i :: 0 <= i < k ==> opts[i].code != opts[k].code
    ensures Lookup(opts, opts[k].code) == Some(opts[k].data)
    decreases k
  {
    if k > 0 {
      assert opts[1..][k - 1] == opts[k] && forall i :: 0 <= i < k - 1 ==> opts[1..][i] == opts[i + 1];
      LookupAt(opts[1..], k - 1);
    }
  }

  // --------------------------------------------------------------------- reading

  /** A list that ends with END, without pad options. */
  predicate Listed(s: seq<Byte>): (r: bool)
    ensures r ==> |s| > 0
    decreases |s|
  {
    |s| > 0 && (s[0] == END || (s[0] != PAD && |s| >= 2 && |s| >= 2 + s[1] as int && Listed(s[2 + s[1] as int..])))
  }

  /** What a list says under a code: the data of the first option that has it. */
  function Read(s: seq<Byte>, code: Byte): Option<seq<Byte>>
    decreases |s|
  {
    if |s| == 0 || s[0] == END then None
    else if s[0] == PAD then Read(s[1..], code)
    else if |s| < 2 || |s| < 2 + s[1] as int then None
    else if s[0] == code then Some(s[2..2 + s[1] as int])
    else Read(s[2 + s[1] as int..], code)
  }

  /** The option itself, at offset `k` of a list. */
  predicate StandsAt(w: seq<Byte>, k: nat, code: Byte, data: seq<Byte>) {
    && k + 2 + |data| < |w|
    && w[k] == code && w[k + 1] as int == |data| && w[k + 2..k + 2 + |data|] == data
  }

  const ABSENT: int := -1

  /** Where the first option with the code begins, if there is one. */
  function FindAt(s: seq<Byte>, code: Byte): (r: int)
    ensures r == ABSENT || 0 <= r < |s|
    ensures Listed(s) && r != ABSENT ==> r + 2 < |s|
    decreases |s|
  {
    if |s| == 0 || s[0] == END then ABSENT
    else if s[0] == PAD then Further(1, FindAt(s[1..], code))
    else if |s| < 2 || |s| < 2 + s[1] as int then ABSENT
    else if s[0] == code then 0
    else Further(2 + s[1] as int, FindAt(s[2 + s[1] as int..], code))
  }

  function Further(n: nat, r: int): int {
    if r == ABSENT then ABSENT else n + r
  }

  /** There it stands, with the data that the list says. */
  lemma {:induction false} FindAtReads(s: seq<Byte>, code: Byte)
    requires Listed(s)
    ensures FindAt(s, code) != ABSENT <==> Read(s, code).Some?
    ensures FindAt(s, code) != ABSENT ==> StandsAt(s, FindAt(s, code), code, Read(s, code).value)
    decreases |s|
  {
    if s[0] != END && s[0] != code {
      var n := 2 + s[1] as int;
      FindAtReads(s[n..], code);
      if FindAt(s[n..], code) != ABSENT {
        StandsFurther(s, n, FindAt(s[n..], code), code, Read(s[n..], code).value);
      }
    }
  }

  lemma StandsFurther(s: seq<Byte>, n: nat, k: nat, code: Byte, data: seq<Byte>)
    requires n <= |s| && StandsAt(s[n..], k, code, data)
    ensures StandsAt(s, n + k, code, data)
  {
    assert s[n..][k + 2..k + 2 + |data|] == s[n + k + 2..n + k + 2 + |data|];
  }

  /** The search has come to offset `i`. */
  predicate Scanned(w: seq<Byte>, i: nat, code: Byte) {
    i < |w| && Listed(w[i..]) && FindAt(w, code) == Further(i, FindAt(w[i..], code))
  }

  lemma ScanStart(w: seq<Byte>, code: Byte)
    requires Listed(w)
    ensures Scanned(w, 0, code)
  {
    assert w[0..] == w;
  }

  /** The option there ends the list, or it is the one looked for. */
  lemma ScanEnds(w: seq<Byte>, i: nat, code: Byte)
    requires Scanned(w, i, code)
    ensures w[i] == END ==> FindAt(w, code) == ABSENT
    ensures w[i] != END ==> i + 1 < |w|
    ensures w[i] != END && w[i] == code ==> FindAt(w, code) == i
  {
    assert w[i..][0] == w[i];
  }

  /** Or the search goes on behind it. */
  lemma ScanGoesOn(w: seq<Byte>, i: nat, n: nat, code: Byte)
    requires Scanned(w, i, code) && w[i] != END && w[i] != code && i + 1 < |w| && n == 2 + w[i + 1] as int
    ensures Scanned(w, i + n, code)
  {
    var s := w[i..];
    assert s[0] == w[i] && s[1] == w[i + 1];
    FindAtUnfolds(s, code);
    assert s[n..] == w[i + n..];
  }

  lemma FindAtUnfolds(s: seq<Byte>, code: Byte)
    requires Listed(s)
    ensures s[0] == END ==> FindAt(s, code) == ABSENT
    ensures s[0] != END ==> |s| > 1 && 2 + s[1] as int < |s|
    ensures s[0] != END ==> var rest := s[2 + s[1] as int..];
                            && Listed(rest)
                            && FindAt(s, code) == if s[0] == code then 0
                                                  else Further(2 + s[1] as int, FindAt(rest, code))
  {
  }

  /** opt_find: where the first option with the code stands. */
  method OptFind(b: array<Byte>, opt: nat, cmd: Byte) returns (at: int)
    requires opt + OPTIONS <= b.Length && Listed(b[opt..opt + OPTIONS])
    ensures at == Further(opt, FindAt(b[opt..opt + OPTIONS], cmd))
  {
    var i := 0;
    ghost var w := b[opt..opt + OPTIONS];
    ScanStart(w, cmd);
    while i < OPTIONS && b[opt + i] != END
      invariant Scanned(w, i, cmd)
      decreases OPTIONS - i
    {
      ScanEnds(w, i, cmd);
      if b[opt + i] == cmd {
        return opt + i;
      }
      ScanGoesOn(w, i, 2 + b[opt + i + 1] as int, cmd);
      i := i + 2 + b[opt + i + 1] as int;
    }
    ScanEnds(w, i, cmd);
    return ABSENT;
  }

  // --------------------------------------------------------------------- writing

  method OptWriteN(b: array<Byte>, opt: nat, cmd: Byte, data: seq<Byte>) returns (end: nat)
    requires TlvOk(Tlv(cmd, data)) && opt + 2 + |data| <= b.Length
    modifies b
    ensures b[..] == Splice(old(b[..]), opt, EncodeTlv(Tlv(cmd, data))) && end == opt + 2 + |data|
  {
    ghost var was := b[..];
    Copy(b, opt, [cmd, |data| as Byte]);
    Extend(b, was, opt, 2, [cmd, |data| as Byte], data);
    end := opt + 2 + |data|;
  }

  method OptWriteU8(b: array<Byte>, opt: nat, cmd: Byte, val: Byte) returns (end: nat)
    requires TlvOk(Tlv(cmd, [val])) && opt + 3 <= b.Length
    modifies b
    ensures b[..] == Splice(old(b[..]), opt, EncodeTlv(Tlv(cmd, [val]))) && end == opt + 3
  {
    b[opt], b[opt + 1], b[opt + 2] := cmd, 1, val;
    assert b[opt..opt + 3] == EncodeTlv(Tlv(cmd, [val]));
    IsSplice(old(b[..]), b[..], opt, EncodeTlv(Tlv(cmd, [val])));
    end := opt + 3;
  }

  method OptWriteU32(b: array<Byte>, opt: nat, cmd: Byte, val: int) returns (end: nat)
    requires 0 <= val < 0x1_0000_0000 && TlvOk(Tlv(cmd, Be32(val))) && opt + 6 <= b.Length
    modifies b
    ensures b[..] == Splice(old(b[..]), opt, EncodeTlv(Tlv(cmd, Be32(val)))) && end == opt + 6
  {
    b[opt], b[opt + 1] := cmd, 4;
    b[opt + 2] := (val / 0x100_0000) as Byte;
    b[opt + 3] := (val / 0x1_0000 % 256) as Byte;
    b[opt + 4] := (val / 256 % 256) as Byte;
    b[opt + 5] := (val % 256) as Byte;
    assert b[opt..opt + 6] == EncodeTlv(Tlv(cmd, Be32(val)));
    IsSplice(old(b[..]), b[..], opt, EncodeTlv(Tlv(cmd, Be32(val))));
    end := opt + 6;
  }

  // ------------------------------------------------------------------ round trip

  lemma ReadFirst(o: Tlv, tail: seq<Byte>, code: Byte)
    requires TlvOk(o)
    ensures var s := EncodeTlv(o) + tail;
            (Listed(s) <==> Listed(tail)) && Read(s, code) == if o.code == code then Some(o.data) else Read(tail, code)
  {
    var s := EncodeTlv(o) + tail;
    assert s[0] == o.code && s[1] as int == |o.data|;
    assert s[2..2 + |o.data|] == o.data && s[2 + |o.data|..] == tail;
  }

  /** Reading undoes writing, whatever lies behind the END option. */
  lemma {:induction false} ReadEncoded(opts: seq<Tlv>, rest: seq<Byte>, code: Byte)
    requires forall i :: 0 <= i < |opts| ==> TlvOk(opts[i])
    ensures Listed(Encode(opts) + [END] + rest)
    ensures Read(Encode(opts) + [END] + rest, code) == Lookup(opts, code)
    decreases |opts|
  {
    var s := Encode(opts) + [END] + rest;
    if opts != [] {
      assert TlvOk(opts[0]);
      var tail := Encode(opts[1..]) + [END] + rest;
      ReadEncoded(opts[1..], rest, code);
      assert s == EncodeTlv(opts[0]) + tail;
      ReadFirst(opts[0], tail, code);
    }
  }

  lemma {:induction false} EncodeAppend(a: seq<Tlv>, o: Tlv)
    requires (forall i :: 0 <= i < |a| ==> TlvOk(a[i])) && TlvOk(o)
    ensures Encode(a + [o]) == Encode(a) + EncodeTlv(o)
  {
    if a == [] {
      assert a + [o] == [o] && Encode([]) == [];
    } else {
      assert (a + [o])[1..] == a[1..] + [o];
      EncodeAppend(a[1..], o);
    }
  }

  /** An option written behind others makes the longer list. */
  lemma WriteNext(was: seq<Byte>, at: nat, opts: seq<Tlv>, o: Tlv)
    requires (forall i :: 0 <= i < |opts| ==> TlvOk(opts[i])) && TlvOk(o)
    requires at + |Encode(opts)| + 2 + |o.data| <= |was|
    ensures |Encode(opts + [o])| == |Encode(opts)| + 2 + |o.data|
    ensures Splice(Splice(was, at, Encode(opts)), at + |Encode(opts)|, EncodeTlv(o)) ==
            Splice(was, at, Encode(opts + [o]))
  {
    EncodeAppend(opts, o);
    SpliceTwice(was, at, Encode(opts), EncodeTlv(o));
  }
}
