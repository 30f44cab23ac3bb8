/**
  The JA3S fingerprint of a server: the ServerHello bytes are picked out of the text that
  `openssl s_client -msg` prints, and version, cipher suite and extension types are read from them
  (RFC 8446, section 4.1.3).  The string modelled is the one the source hashes with MD5.
 */
module ServerHello {
  import opened Strings

  type Byte = b: nat | b < 256 witness 0

  // ---------------------------------------------------------------- hexadecimal text

  predicate IsHex(c: char) { '0' <= c <= '9' || 'a' <= c <= 'f' || 'A' <= c <= 'F' }

  function HexVal(c: char): nat
    requires IsHex(c)
  {
    if c <= '9' then c as int - '0' as int else if c <= 'F' then c as int - 'A' as int + 10
    else c as int - 'a' as int + 10
  }

  function HexValue(s: string): nat
    requires forall c :: c in s ==> IsHex(c)
  {
    if s == "" then 0 else assert s[|s| - 1] in s && IsHex(s[|s| - 1]); HexValue(s[..|s| - 1]) * 16 + HexVal(s[|s| - 1])
  }

  /** `int(s, 16)` on hexadecimal digits and white space; `None` is `ValueError`. */
  function HexInt(s: string): Option<nat> {
    var t := Strip(s);
    if t != "" && forall c :: c in t ==> IsHex(c) then Some(HexValue(t)) else None
  }

  /** Python's `s[i:j]`, which never fails. */
  function Slice<T>(s: seq<T>, i: nat, j: nat): seq<T> {
    var lo, hi := if i <= |s| then i else |s|, if j <= |s| then j else |s|;
    if lo <= hi then s[lo..hi] else []
  }

  // ---------------------------------------------------------------- the parser

  /** The extension types from offset `e` on. */
  function ExtTypes(data: string, e: nat): Option<seq<nat>>
    decreases |data| - e
  {
    if e + 8 > |data| then Some([])
    else
      var typ, len := HexInt(data[e..e + 4]), HexInt(data[e + 4..e + 8]);
      if typ.None? || len.None? then None
      else
        var rest := ExtTypes(data, e + 8 + 2 * len.value);
        if rest.None? then None else Some([typ.value] + rest.value)
  }

  function Decimals(ns: seq<nat>): seq<string> {
    if ns == [] then [] else [Decimal(ns[0])] + Decimals(ns[1..])
  }

  function Fingerprint(version: nat, cipher: nat, types: seq<nat>): string {
    Decimal(version) + [','] + (Decimal(cipher) + [','] + Join(Decimals(types), "-"))
  }

  /** The fingerprint string of the hex text of a handshake message. */
  function Ja3s(hex: string): Option<string> {
    if |hex| < 100 then None
    else
      var version, sidLen := HexInt(Slice(hex, 8, 12)), HexInt(Slice(hex, 76, 78));
      if version.None? || sidLen.None? then None
      else
        var c := 78 + 2 * sidLen.value;
        var cipher := HexInt(Slice(hex, c, c + 4));
        if cipher.None? then None
        else if c + 10 > |hex| then Some(Fingerprint(version.value, cipher.value, []))
        else
          var extLen := HexInt(Slice(hex, c + 6, c + 10));
          if extLen.None? then None
          else
            var types := ExtTypes(Slice(hex, c + 10, c + 10 + 2 * extLen.value), 0);
            if types.None? then None else Some(Fingerprint(version.value, cipher.value, types.value))
  }

  /** The extension loop; it ends on any text, because every entry is at least eight digits long. */
  method ReadExtTypes(data: string) returns (r: Option<seq<nat>>)
    ensures r == ExtTypes(data, 0)
  {
    hide HexInt;
    var types: seq<nat> := [];
    var e: nat := 0;
    assert ExtTypes(data, 0).Some? ==> [] + ExtTypes(data, 0).value == ExtTypes(data, 0).value;
    while e + 8 <= |data|
      invariant ExtTypes(data, 0) == Prepend(types, ExtTypes(data, e))
      decreases |data| - e
    {
      var typ, len := HexInt(data[e..e + 4]), HexInt(data[e + 4..e + 8]);
      if typ.None? || len.None? { return None; }
      ghost var rest := ExtTypes(data, e + 8 + 2 * len.value);
      assert rest.Some? ==> types + ([typ.value] + rest.value) == (types + [typ.value]) + rest.value;
      types := types + [typ.value];
      e := e + 8 + 2 * len.value;
    }
    assert types + [] == types;
    return Some(types);
  }

  function Prepend(front: seq<nat>, rest: Option<seq<nat>>): Option<seq<nat>> {
    if rest.None? then None else Some(front + rest.value)
  }

  /** The parser as the source runs it: an index walks over the text. */
  method ComputeJa3s(hex: string) returns (r: Option<string>)
    ensures r == Ja3s(hex)
  {
    hide ExtTypes, HexInt, Slice, Fingerprint;
    if |hex| < 100 { return None; }
    var idx := 8;
    var version := HexInt(Slice(hex, idx, idx + 4));
    idx := idx + 4 + 64;
    var sidLen := HexInt(Slice(hex, idx, idx + 2));
    if version.None? || sidLen.None? { return None; }
    idx := idx + 2 + 2 * sidLen.value;
    var cipher := HexInt(Slice(hex, idx, idx + 4));
    if cipher.None? { return None; }
    idx := idx + 4 + 2;
    var types: seq<nat> := [];
    if idx + 4 <= |hex| {
      var extLen := HexInt(Slice(hex, idx, idx + 4));
      if extLen.None? { return None; }
      idx := idx + 4;
      var read := ReadExtTypes(Slice(hex, idx, idx + 2 * extLen.value));
      if read.None? { return None; }
      types := read.value;
    }
    return Some(Fingerprint(version.value, cipher.value, types));
  }

  // ---------------------------------------------------------------- the extractor

  predicate IsHeader(line: string) { Contains(line, "ServerHello") && Contains(line, "<<<") }

  /** A blank line, or the header line of another record. */
  predicate IsStop(line: string) {
    Strip(line) == "" || Contains(line, ">>>") || (Contains(line, "<<<") && !Contains(line, "ServerHello"))
  }

  /** Two-digit groups separated by white space. */
  predicate HexLine(s: string)
    decreases |s|
  {
    |s| >= 2 && IsHex(s[0]) && IsHex(s[1]) &&
    (|s| == 2 || (IsSpace(s[2]) && (LStripFacts(s[2..]); HexLine(LStrip(s[2..])))))
  }

  function RemoveSpaces(s: string): string {
    if s == "" then "" else (if s[0] == ' ' then "" else [s[0]]) + RemoveSpaces(s[1..])
  }

  function Extract(lines: seq<string>, inHello: bool, hex: string): string {
    if lines == [] then hex
    else if IsHeader(lines[0]) then Extract(lines[1..], true, hex)
    else if inHello && IsStop(lines[0]) && hex != "" then hex
    else if inHello && !IsStop(lines[0]) && HexLine(Strip(lines[0])) then
      Extract(lines[1..], true, hex + RemoveSpaces(Strip(lines[0])))
    else Extract(lines[1..], inHello, hex)
  }

  method ExtractServerHelloHex(output: string) returns (hex: string)
    ensures hex == Extract(Split(output, '\n'), false, "")
  {
    var lines := Split(output, '\n');
    var inHello := false;
    hex := "";
    for i := 0 to |lines|
      invariant Extract(lines, false, "") == Extract(lines[i..], inHello, hex)
    {
      var line := lines[i];
      assert lines[i..][0] == line && lines[i..][1..] == lines[i + 1..];
      if IsHeader(line) {
        inHello := true;
        continue;
      }
      if inHello {
        if IsStop(line) {
          if hex != "" { break; }
          continue;
        }
        if HexLine(Strip(line)) { hex := hex + RemoveSpaces(Strip(line)); }
      }
    }
  }

  // ---------------------------------------------------------------- encoding

  function HexDigit(n: nat): char
    requires n < 16
  {
    if n < 10 then (n + '0' as int) as char else (n - 10 + 'a' as int) as char
  }

  function Hex2(b: Byte): string { [HexDigit(b / 16), HexDigit(b % 16)] }

  /** `bytes.hex()` */
  function Hex(bs: seq<Byte>): (r: string)
    ensures |r| == 2 * |bs|
  {
    if bs == [] then "" else Hex(bs[..|bs| - 1]) + Hex2(bs[|bs| - 1])
  }

  /** The big-endian number that the bytes stand for. */
  function Number(bs: seq<Byte>): nat {
    if bs == [] then 0 else Number(bs[..|bs| - 1]) * 256 + bs[|bs| - 1]
  }

  function U16(n: nat): (r: seq<Byte>)
    requires n < 0x1_0000
    ensures |r| == 2
  {
    [n / 256, n % 256]
  }

  function U24(n: nat): (r: seq<Byte>)
    requires n < 0x100_0000
    ensures |r| == 3
  {
    [n / 0x1_0000, n / 256 % 256, n % 256]
  }

  datatype Extension = Extension(typ: nat, body: seq<Byte>) {
    predicate Valid() { typ < 0x1_0000 && |body| < 0x1_0000 }
  }

  datatype Hello = Hello(
    version: nat, random: seq<Byte>, sessionId: seq<Byte>, cipher: nat, compression: Byte,
    extensions: Option<seq<Extension>>)
  {
    predicate Valid() {
      && version < 0x1_0000 && |random| == 32 && |sessionId| < 256 && cipher < 0x1_0000
      && (extensions.Some? ==>
        (forall x :: x in extensions.value ==> x.Valid()) && |EncodeAll(extensions.value)| < 0x1_0000)
    }

    function Types(): seq<nat> { if extensions.Some? then TypesOf(extensions.value) else [] }
  }

  function TypesOf(xs: seq<Extension>): seq<nat> {
    if xs == [] then [] else [xs[0].typ] + TypesOf(xs[1..])
  }

  function EncodeAll(xs: seq<Extension>): seq<Byte> {
    if xs == [] then []
    else (if xs[0].Valid() then U16(xs[0].typ) + U16(|xs[0].body|) + xs[0].body else []) + EncodeAll(xs[1..])
  }

  function EncodeBody(h: Hello): seq<Byte>
    requires h.Valid()
  {
    U16(h.version) + h.random + [|h.sessionId|] + h.sessionId + U16(h.cipher) + [h.compression] +
    if h.extensions.Some? then U16(|EncodeAll(h.extensions.value)|) + EncodeAll(h.extensions.value) else []
  }

  /** The handshake message: type 2, a 24-bit length, the body. */
  function Encode(h: Hello): seq<Byte>
    requires h.Valid()
  {
    [2] + U24(|EncodeBody(h)|) + EncodeBody(h)
  }

  // ---------------------------------------------------------------- hexadecimal text of bytes

  lemma HexDigitValue(n: nat)
    requires n < 16
    ensures IsHex(HexDigit(n)) && HexVal(HexDigit(n)) == n && !IsSpace(HexDigit(n)) && HexDigit(n) != '<' &&
      HexDigit(n) != '>'
  {}

  lemma {:induction false} HexChars(bs: seq<Byte>)
    ensures forall c :: c in Hex(bs) ==> IsHex(c) && !IsSpace(c)
  {
    if bs != [] {
      HexChars(bs[..|bs| - 1]);
      HexDigitValue(bs[|bs| - 1] / 16);
      HexDigitValue(bs[|bs| - 1] % 16);
    }
  }

  lemma {:induction false} HexNumber(bs: seq<Byte>)
    ensures forall c :: c in Hex(bs) ==> IsHex(c)
    ensures HexValue(Hex(bs)) == Number(bs)
  {
    HexChars(bs);
    if bs != [] {
      var front, b := bs[..|bs| - 1], bs[|bs| - 1];
      HexNumber(front);
      HexDigitValue(b / 16);
      HexDigitValue(b % 16);
      var s := Hex(bs);
      assert s[..|s| - 1] == Hex(front) + [HexDigit(b / 16)];
      assert s[..|s| - 1][..|s| - 2] == Hex(front);
    }
  }

  lemma HexIntOfHex(bs: seq<Byte>)
    ensures HexInt(Hex(bs)) == if bs == [] then None else Some(Number(bs))
  {
    HexChars(bs);
    if bs != [] {
      var s := Hex(bs);
      assert s[0] in s && s[|s| - 1] in s;
      StripClean(s);
      HexNumber(bs);
    }
  }

  lemma {:induction false} HexPrefix(bs: seq<Byte>, n: nat)
    requires n <= |bs|
    ensures Hex(bs)[..2 * n] == Hex(bs[..n])
  {
    if n == |bs| {
      assert bs[..n] == bs && Hex(bs)[..2 * n] == Hex(bs);
    } else {
      var front := bs[..|bs| - 1];
      HexPrefix(front, n);
      assert front[..n] == bs[..n];
      assert Hex(bs)[..2 * n] == Hex(front)[..2 * n];
    }
  }

  lemma {:induction false} HexConcat(a: seq<Byte>, b: seq<Byte>)
    ensures Hex(a + b) == Hex(a) + Hex(b)
  {
    if b == [] {
      assert a + b == a;
    } else {
      HexConcat(a, b[..|b| - 1]);
      assert (a + b)[..|a + b| - 1] == a + b[..|b| - 1];
    }
  }

  /** Slicing the text at even offsets is slicing the bytes. */
  lemma HexSlice(bs: seq<Byte>, i: nat, j: nat)
    ensures Slice(Hex(bs), 2 * i, 2 * j) == Hex(Slice(bs, i, j))
  {
    var lo, hi := if i <= |bs| then i else |bs|, if j <= |bs| then j else |bs|;
    if lo <= hi {
      var mid := bs[lo..hi];
      assert bs[..hi] == bs[..lo] + mid;
      HexConcat(bs[..lo], mid);
      HexPrefix(bs, hi);
      assert Hex(bs)[..2 * hi][2 * lo..] == Hex(mid);
      assert Hex(bs)[2 * lo..2 * hi] == Hex(bs)[..2 * hi][2 * lo..];
    }
  }

  lemma HexIntSlice(bs: seq<Byte>, i: nat, j: nat)
    ensures HexInt(Slice(Hex(bs), 2 * i, 2 * j)) ==
      if Slice(bs, i, j) == [] then None else Some(Number(Slice(bs, i, j)))
  {
    HexSlice(bs, i, j);
    HexIntOfHex(Slice(bs, i, j));
  }

  // ---------------------------------------------------------------- the parser inverts the encoding

  /** The extension types of an encoded list are read back in wire order. */
  lemma {:induction false} ExtTypesOfEncoding(before: seq<Byte>, xs: seq<Extension>)
    requires forall x :: x in xs ==> x.Valid()
    ensures ExtTypes(Hex(before + EncodeAll(xs)), 2 * |before|) == Some(TypesOf(xs))
    decreases |xs|
  {
    hide HexInt;
    var data := before + EncodeAll(xs);
    if xs != [] {
      var x, n := xs[0], |before|;
      assert x in xs;
      var entry := U16(x.typ) + U16(|x.body|) + x.body;
      assert data == (before + entry) + EncodeAll(xs[1..]);
      ExtTypesOfEncoding(before + entry, xs[1..]);
      EntryHeader(before, x, EncodeAll(xs[1..]));
    }
  }

  lemma NumberU16(n: nat)
    requires n < 0x1_0000
    ensures Number(U16(n)) == n
  {
    assert Number([n / 256]) == n / 256 by { assert [n / 256][..0] == []; }
    assert U16(n)[..1] == [n / 256];
  }

  lemma EntryHeader(before: seq<Byte>, x: Extension, after: seq<Byte>)
    requires x.Valid()
    ensures var hex, i := Hex(before + (U16(x.typ) + U16(|x.body|) + x.body) + after), 2 * |before|;
      i + 8 <= |hex| && HexInt(hex[i..i + 4]) == Some(x.typ) && HexInt(hex[i + 4..i + 8]) == Some(|x.body|)
  {
    hide HexInt, Number, Hex;
    var bs, n := before + (U16(x.typ) + U16(|x.body|) + x.body) + after, |before|;
    assert Slice(bs, n, n + 2) == U16(x.typ) && Slice(bs, n + 2, n + 4) == U16(|x.body|);
    HexIntSlice(bs, n, n + 2);
    HexIntSlice(bs, n + 2, n + 4);
    NumberU16(x.typ);
    NumberU16(|x.body|);
  }

  lemma SliceMiddle<T>(a: seq<T>, x: seq<T>, b: seq<T>)
    ensures Slice(a + x + b, |a|, |a| + |x|) == x
  {}

  /** The extension block: its length and the encoded list, or nothing. */
  function ExtensionBlock(h: Hello): seq<Byte>
    requires h.Valid()
  {
    if h.extensions.Some? then U16(|EncodeAll(h.extensions.value)|) + EncodeAll(h.extensions.value) else []
  }

  /** The slices of a message that is put together from its fields. */
  lemma FieldSlices<T>(head: seq<T>, v: seq<T>, r: seq<T>, l: seq<T>, sid: seq<T>, c: seq<T>, k: seq<T>, e: seq<T>)
    requires |head| == 4 && |v| == 2 && |r| == 32 && |l| == 1 && |c| == 2 && |k| == 1
    ensures var m, n := head + (v + r + l + sid + c + k) + e, |sid|;
      && Slice(m, 4, 6) == v && Slice(m, 38, 39) == l && Slice(m, 39 + n, 41 + n) == c && m[42 + n..] == e
  {
    hide Slice;
    var m := head + (v + r + l + sid + c + k) + e;
    SliceMiddle(head, v, r + l + sid + c + k + e);
    assert m == head + v + (r + l + sid + c + k + e);
    var p1 := head + v + r;
    SliceMiddle(p1, l, sid + c + k + e);
    assert m == p1 + l + (sid + c + k + e);
    LaterSlices(m, p1 + l, sid, c, k, e);
  }

  lemma LaterSlices<T>(m: seq<T>, p: seq<T>, sid: seq<T>, c: seq<T>, k: seq<T>, e: seq<T>)
    requires m == p + (sid + c + k + e) && |p| == 39 && |c| == 2 && |k| == 1
    ensures Slice(m, 39 + |sid|, 41 + |sid|) == c && m[42 + |sid|..] == e
  {
    hide Slice;
    SliceMiddle(p + sid, c, k + e);
    assert m == p + sid + c + (k + e);
    assert m == p + sid + c + k + e;
  }

  /** Where the parsed fields lie in the message. */
  lemma Layout(h: Hello, extra: seq<Byte>)
    requires h.Valid()
    ensures var m, n := Encode(h) + extra, |h.sessionId|;
      && |m| == 42 + n + |ExtensionBlock(h)| + |extra|
      && Slice(m, 4, 6) == U16(h.version) && Slice(m, 38, 39) == [n] && Slice(m, 39 + n, 41 + n) == U16(h.cipher)
      && m[42 + n..] == ExtensionBlock(h) + extra
  {
    hide EncodeAll, U16, U24, Slice;
    var m := Encode(h) + extra;
    var fields := U16(h.version) + h.random + [|h.sessionId|] + h.sessionId + U16(h.cipher) + [h.compression];
    FieldSlices<Byte>([2] + U24(|EncodeBody(h)|), U16(h.version), h.random, [|h.sessionId|], h.sessionId, U16(h.cipher),
                [h.compression], ExtensionBlock(h) + extra);
    assert EncodeBody(h) == fields + ExtensionBlock(h);
    assert m == [2] + U24(|EncodeBody(h)|) + fields + (ExtensionBlock(h) + extra);
  }

  lemma BlockSlices(h: Hello, extra: seq<Byte>)
    requires h.Valid() && h.extensions.Some?
    ensures var m, n, list := Encode(h) + extra, |h.sessionId|, EncodeAll(h.extensions.value);
      Slice(m, 42 + n, 44 + n) == U16(|list|) && Slice(m, 44 + n, 44 + n + |list|) == list
  {
    hide EncodeAll, Encode;
    Layout(h, extra);
    var m, n, list := Encode(h) + extra, |h.sessionId|, EncodeAll(h.extensions.value);
    var tail := m[42 + n..];
    assert tail == U16(|list|) + list + extra;
    assert tail[..2] == U16(|list|) && tail[2..2 + |list|] == list;
    assert |m| >= 44 + n + |list|;
    assert Slice(m, 42 + n, 44 + n) == tail[..2];
    assert Slice(m, 44 + n, 44 + n + |list|) == tail[2..2 + |list|];
  }

  lemma NumberByte(b: Byte)
    ensures Number([b]) == b
  {
    assert [b][..0] == [];
  }

  /**
    Parsing the hex text of an encoded ServerHello gives its version, cipher and extension types in
    wire order, whatever its random bytes, session id, compression byte and extension bodies are and
    whatever follows the declared extension block, as soon as the message has fifty bytes; a shorter
    message, although well formed, gives nothing.
   */
  lemma {:induction false} Ja3sOfEncoding(h: Hello, extra: seq<Byte>)
    requires h.Valid() && (h.extensions.None? ==> extra == [])
    ensures Ja3s(Hex(Encode(h) + extra)) ==
      if |Encode(h) + extra| >= 50 then Some(Fingerprint(h.version, h.cipher, h.Types())) else None
  {
    hide HexInt, Hex, Number, Slice, Encode, EncodeAll, ExtTypes, Fingerprint;
    var m, n := Encode(h) + extra, |h.sessionId|;
    Layout(h, extra);
    HexIntSlice(m, 4, 6);
    NumberU16(h.version);
    HexIntSlice(m, 38, 39);
    NumberByte(n);
    HexIntSlice(m, 39 + n, 41 + n);
    NumberU16(h.cipher);
    if h.extensions.Some? {
      var list := EncodeAll(h.extensions.value);
      BlockSlices(h, extra);
      HexIntSlice(m, 42 + n, 44 + n);
      NumberU16(|list|);
      HexSlice(m, 44 + n, 44 + n + |list|);
      assert [] + list == list;
      ExtTypesOfEncoding([], h.extensions.value);
    }
  }

  /** Two fingerprint strings are equal exactly when version, cipher and extension types are. */
  lemma {:induction false} FingerprintCanonical(v: nat, c: nat, ts: seq<nat>, v': nat, c': nat, ts': seq<nat>)
    ensures Fingerprint(v, c, ts) == Fingerprint(v', c', ts') <==> v == v' && c == c' && ts == ts'
  {
    if Fingerprint(v, c, ts) == Fingerprint(v', c', ts') {
      FingerprintParts(v, c, ts);
      FingerprintParts(v', c', ts');
      DecimalValue(v);
      DecimalValue(v');
      DecimalValue(c);
      DecimalValue(c');
      DecimalsInjective(ts, ts');
    }
  }

  lemma FingerprintParts(v: nat, c: nat, ts: seq<nat>)
    ensures var rest := Split(Fingerprint(v, c, ts), ',');
      |rest| == 3 && rest[0] == Decimal(v) && rest[1] == Decimal(c)
      && Split(rest[2], '-') == if ts == [] then [""] else Decimals(ts)
  {
    DecimalValue(v);
    DecimalValue(c);
    DecimalsChars(ts);
    var list := Join(Decimals(ts), "-");
    SplitAt(Decimal(v), ',', Decimal(c) + [','] + list);
    SplitAt(Decimal(c), ',', list);
    SplitNone(list, ',');
    if ts != [] { SplitJoin(Decimals(ts), '-'); }
  }

  lemma {:induction false} DecimalsChars(ts: seq<nat>)
    ensures |Decimals(ts)| == |ts| && ',' !in Join(Decimals(ts), "-")
    ensures forall p :: p in Decimals(ts) ==> '-' !in p
  {
    if ts != [] {
      DecimalsChars(ts[1..]);
      DecimalValue(ts[0]);
      assert Decimals(ts)[1..] == Decimals(ts[1..]);
    }
  }

  lemma {:induction false} DecimalsInjective(ts: seq<nat>, ts': seq<nat>)
    requires (if ts == [] then [""] else Decimals(ts)) == if ts' == [] then [""] else Decimals(ts')
    ensures ts == ts'
  {
    DecimalsNotBlank(ts);
    DecimalsNotBlank(ts');
    if ts != [] { SameDecimals(ts, ts'); }
  }

  lemma DecimalsNotBlank(ts: seq<nat>)
    ensures Decimals(ts) != [""]
  {
    if ts != [] {
      DecimalValue(ts[0]);
      assert Decimals(ts)[0] == Decimal(ts[0]);
    }
  }

  lemma {:induction false} SameDecimals(ts: seq<nat>, ts': seq<nat>)
    requires Decimals(ts) == Decimals(ts')
    ensures ts == ts'
  {
    DecimalsChars(ts);
    DecimalsChars(ts');
    if ts != [] {
      assert Decimals(ts)[0] == Decimal(ts[0]) && Decimals(ts')[0] == Decimal(ts'[0]);
      assert Decimals(ts)[1..] == Decimals(ts[1..]) && Decimals(ts')[1..] == Decimals(ts'[1..]);
      DecimalValue(ts[0]);
      DecimalValue(ts'[0]);
      SameDecimals(ts[1..], ts'[1..]);
      assert ts == [ts[0]] + ts[1..] && ts' == [ts'[0]] + ts'[1..];
    }
  }

  // ---------------------------------------------------------------- the dump

  /** The bytes as two-digit groups with single spaces between them. */
  function DumpBytes(bs: seq<Byte>): string
    requires bs != []
  {
    Hex2(bs[0]) + if |bs| == 1 then "" else " " + DumpBytes(bs[1..])
  }

  /** The header line of a received ServerHello. */
  predicate NamesHello(line: string) { Contains(line, "<<<") && Contains(line, "ServerHello") }

  /** A blank line, the header of a sent record, or that of another received one. */
  predicate EndsRecord(line: string) {
    !NamesHello(line) && (Blanks(line) || Contains(line, ">>>") || Contains(line, "<<<"))
  }

  /** A line inside a record that is no data: it holds something other than digits and white space. */
  predicate Remark(line: string) {
    NamesHello(line) || (!EndsRecord(line) && exists c :: c in line && !IsHex(c) && !IsSpace(c))
  }

  /** A line of a record: some of its bytes, with white space around them, or a remark. */
  datatype RecordLine = Data(pad: string, bytes: seq<Byte>, end: string) | Other(text: string) {
    predicate Ok() { if Data? then bytes != [] && Blanks(pad) && Blanks(end) else Remark(text) }

    function Text(): string
      requires Ok()
    {
      if Data? then pad + (DumpBytes(bytes) + end) else text
    }
  }

  function RecordText(record: seq<RecordLine>): (r: seq<string>)
    requires forall i :: 0 <= i < |record| ==> record[i].Ok()
    ensures |r| == |record| && forall i :: 0 <= i < |r| ==> r[i] == record[i].Text()
  {
    seq(|record|, i requires 0 <= i < |record| => record[i].Text())
  }

  function RecordBytes(record: seq<RecordLine>): seq<Byte> {
    if record == [] then []
    else (if record[0].Data? then record[0].bytes else []) + RecordBytes(record[1..])
  }

  lemma NotContained(hay: string, needle: string)
    requires needle != "" && needle[0] !in hay
    ensures !Contains(hay, needle)
  {
    forall i | 0 <= i <= |hay| ensures !(needle <= hay[i..]) {
      assert i < |hay| ==> hay[i..][0] == hay[i] && hay[i] in hay;
    }
  }

  predicate DumpChar(c: char) { c == ' ' || (IsHex(c) && !IsSpace(c)) }

  lemma {:induction false} DumpBytesChars(bs: seq<Byte>)
    requires bs != []
    ensures var s := DumpBytes(bs);
      |s| >= 2 && (forall c :: c in s ==> DumpChar(c)) && !IsSpace(s[0]) && !IsSpace(s[1]) && !IsSpace(s[|s| - 1])
      && s[..2] == Hex2(bs[0])
  {
    HexDigitValue(bs[0] / 16);
    HexDigitValue(bs[0] % 16);
    if |bs| > 1 {
      DumpBytesChars(bs[1..]);
      var rest := DumpBytes(bs[1..]);
      assert DumpBytes(bs) == Hex2(bs[0]) + " " + rest;
      assert DumpBytes(bs)[|DumpBytes(bs)| - 1] == rest[|rest| - 1];
    }
  }

  lemma DumpBytesCons(bs: seq<Byte>)
    requires |bs| > 1
    ensures var s, rest := DumpBytes(bs), DumpBytes(bs[1..]);
      s == Hex2(bs[0]) + (" " + rest) && s[2..] == " " + rest && LStrip(s[2..]) == rest
  {
    var s, rest := DumpBytes(bs), DumpBytes(bs[1..]);
    DumpBytesChars(bs[1..]);
    assert s[2..] == " " + rest && s[2..][1..] == rest;
  }

  /** The extractor's regular expression accepts a dumped chunk. */
  lemma {:induction false} DumpIsHexLine(bs: seq<Byte>)
    requires bs != []
    ensures HexLine(DumpBytes(bs))
  {
    hide Hex2, DumpBytes;
    var s := DumpBytes(bs);
    DumpBytesChars(bs);
    assert s[0] in s && s[1] in s;
    if |bs| > 1 {
      DumpBytesCons(bs);
      DumpIsHexLine(bs[1..]);
      assert s[2] == s[2..][0];
    } else {
      assert |s| == 2 by { SingleDump(bs); }
    }
  }

  lemma SingleDump(bs: seq<Byte>)
    requires |bs| == 1
    ensures DumpBytes(bs) == Hex2(bs[0]) + "" && Hex(bs) == Hex2(bs[0])
  {
    assert bs[..0] == [];
  }

  /** Dropping the spaces of a dumped chunk leaves its hex text. */
  lemma {:induction false} DumpWithoutSpaces(bs: seq<Byte>)
    requires bs != []
    ensures RemoveSpaces(DumpBytes(bs)) == Hex(bs)
  {
    hide DumpBytes, Hex;
    HexDigitValue(bs[0] / 16);
    HexDigitValue(bs[0] % 16);
    if |bs| > 1 {
      DumpBytesCons(bs);
      DumpWithoutSpaces(bs[1..]);
      SingleDump([bs[0]]);
      assert bs == [bs[0]] + bs[1..];
      HexConcat([bs[0]], bs[1..]);
      var rest := DumpBytes(bs[1..]);
      RemoveSpacesConcat(Hex2(bs[0]), " " + rest);
      assert (" " + rest)[1..] == rest;
    } else {
      SingleDump(bs);
      RemoveSpacesConcat(Hex2(bs[0]), "");
    }
  }

  lemma RemoveSpacesConcat(two: string, rest: string)
    requires |two| == 2 && two[0] != ' ' && two[1] != ' '
    ensures RemoveSpaces(two + rest) == two + RemoveSpaces(rest)
  {
    var s := two + rest;
    assert s[1..] == [two[1]] + rest && s[1..][1..] == rest;
  }

  lemma DataLine(pad: string, bytes: seq<Byte>, end: string)
    requires bytes != [] && Blanks(pad) && Blanks(end)
    ensures var line := pad + (DumpBytes(bytes) + end);
      !IsHeader(line) && !IsStop(line) && HexLine(Strip(line)) && RemoveSpaces(Strip(line)) == Hex(bytes)
  {
    hide DumpBytes, Hex, HexLine, RemoveSpaces, Contains;
    var s := DumpBytes(bytes);
    DumpIsHexLine(bytes);
    DumpWithoutSpaces(bytes);
    DumpBytesChars(bytes);
    LStripBlanks(pad, s + end);
    RStripBlanks(s, end);
    assert forall c :: c in pad + (s + end) ==> IsSpace(c) || DumpChar(c);
    NotContained(pad + (s + end), "<<<");
    NotContained(pad + (s + end), ">>>");
  }

  lemma RemarkLine(line: string)
    requires Remark(line)
    ensures IsHeader(line) || (!IsStop(line) && !HexLine(Strip(line)))
  {
    hide Contains, HexLine;
    if !NamesHello(line) {
      var c :| c in line && !IsHex(c) && !IsSpace(c);
      StripKeeps(line);
      if HexLine(Strip(line)) { HexLineChars(Strip(line)); }
    }
  }

  lemma StopLine(line: string)
    requires EndsRecord(line)
    ensures IsStop(line) && !IsHeader(line)
  {
    hide Contains;
    if Blanks(line) {
      LStripBlanks(line, "");
      assert line + "" == line;
    }
  }

  lemma ExtractLine(line: RecordLine, lines: seq<string>, hex: string)
    requires line.Ok() && lines != [] && lines[0] == line.Text()
    ensures Extract(lines, true, hex) ==
      Extract(lines[1..], true, hex + if line.Data? then Hex(line.bytes) else "")
  {
    hide IsHeader, IsStop, HexLine, Strip, Hex, DumpBytes, Remark, RemoveSpaces;
    if line.Data? {
      DataLine(line.pad, line.bytes, line.end);
    } else {
      RemarkLine(line.text);
      assert hex + "" == hex;
    }
  }

  lemma {:induction false} ExtractRecord(record: seq<RecordLine>, tail: seq<string>, hex: string)
    requires forall i :: 0 <= i < |record| ==> record[i].Ok()
    ensures Extract(RecordText(record) + tail, true, hex) == Extract(tail, true, hex + Hex(RecordBytes(record)))
    decreases |record|
  {
    hide IsHeader, IsStop, HexLine, Strip, Hex, Extract, DumpBytes, RecordLine.Ok, RecordLine.Text;
    var lines := RecordText(record) + tail;
    if record == [] {
      assert lines == tail && hex + Hex([]) == hex by { HexConcat([], []); }
    } else {
      var more := if record[0].Data? then record[0].bytes else [];
      assert lines[1..] == RecordText(record[1..]) + tail;
      ExtractLine(record[0], lines, hex);
      assert Hex([]) == "" by { HexConcat([], []); }
      ExtractRecord(record[1..], tail, hex + Hex(more));
      HexConcat(more, RecordBytes(record[1..]));
      assert hex + Hex(more) + Hex(RecordBytes(record[1..])) == hex + (Hex(more) + Hex(RecordBytes(record[1..])));
    }
  }

  lemma {:induction false} ExtractSkips(before: seq<string>, rest: seq<string>)
    requires forall l :: l in before ==> !NamesHello(l)
    ensures Extract(before + rest, false, "") == Extract(rest, false, "")
    decreases |before|
  {
    hide IsStop, Contains;
    if before == [] {
      assert before + rest == rest;
    } else {
      assert before[0] in before;
      assert (before + rest)[0] == before[0] && (before + rest)[1..] == before[1..] + rest;
      ExtractSkips(before[1..], rest);
    }
  }

  /** What stands between the header and the first data is skipped, whatever records it ends. */
  lemma {:induction false} ExtractWaits(gap: seq<string>, rest: seq<string>)
    requires forall l :: l in gap ==> EndsRecord(l) || Remark(l)
    ensures Extract(gap + rest, true, "") == Extract(rest, true, "")
    decreases |gap|
  {
    hide IsStop, IsHeader, HexLine, Strip, EndsRecord, Remark;
    if gap == [] {
      assert gap + rest == rest;
    } else {
      assert gap[0] in gap;
      assert (gap + rest)[0] == gap[0] && (gap + rest)[1..] == gap[1..] + rest;
      if EndsRecord(gap[0]) { StopLine(gap[0]); } else { RemarkLine(gap[0]); }
      ExtractWaits(gap[1..], rest);
    }
  }

  /**
    The dump of a message inside other output.  Before its header stands anything but another
    ServerHello's header, such as other records with their data; after the header, lines without data;
    then the record with its data lines, in which remarks may stand; and after it the end of the text,
    a blank line or another record.
  */
  ghost predicate DumpText(
    text: string, m: seq<Byte>, before: seq<string>, header: string, gap: seq<string>, record: seq<RecordLine>,
    tail: seq<string>)
  {
    && (forall l :: l in before ==> !(Contains(l, "ServerHello") && Contains(l, "<<<")))
    && Contains(header, "ServerHello") && Contains(header, "<<<")
    && (forall l :: l in gap ==> EndsRecord(l) || Remark(l))
    && (forall i :: 0 <= i < |record| ==> record[i].Ok()) && RecordBytes(record) == m
    && (tail != [] ==> EndsRecord(tail[0]))
    && (var lines := before + [header] + gap + RecordText(record) + tail;
        text == Join(lines, "\n") && forall l :: l in lines ==> '\n' !in l)
  }

  lemma ExtractAfterHeader(header: string, rest: seq<string>)
    requires Contains(header, "ServerHello") && Contains(header, "<<<")
    ensures Extract([header] + rest, false, "") == Extract(rest, true, "")
  {
    hide IsStop, HexLine, Strip, Contains;
    assert ([header] + rest)[0] == header && ([header] + rest)[1..] == rest;
  }

  lemma ExtractStops(tail: seq<string>, hex: string)
    requires hex != "" && (tail != [] ==> EndsRecord(tail[0]))
    ensures Extract(tail, true, hex) == hex
  {
    hide IsHeader, IsStop, HexLine, Strip, EndsRecord;
    if tail != [] { StopLine(tail[0]); }
  }

  /** Extraction finds exactly the hex text of the dumped message, however its lines were broken. */
  lemma {:induction false} ExtractionFindsMessage(
    text: string, m: seq<Byte>, before: seq<string>, header: string, gap: seq<string>, record: seq<RecordLine>,
    tail: seq<string>)
    requires DumpText(text, m, before, header, gap, record, tail) && m != []
    ensures Extract(Split(text, '\n'), false, "") == Hex(m)
  {
    hide IsHeader, IsStop, Hex, Extract, Split, Join, Contains, EndsRecord, Remark, RecordLine.Ok, RecordBytes;
    var dump := RecordText(record);
    SplitJoin(before + [header] + gap + dump + tail, '\n');
    assert before + [header] + gap + dump + tail == before + ([header] + (gap + (dump + tail)));
    ExtractSkips(before, [header] + (gap + (dump + tail)));
    ExtractAfterHeader(header, gap + (dump + tail));
    ExtractWaits(gap, dump + tail);
    ExtractRecord(record, tail, "");
    assert "" + Hex(m) == Hex(m);
    ExtractStops(tail, Hex(m));
  }

  /** From the printed dump of any well-formed ServerHello the scanner computes that ServerHello's fingerprint. */
  lemma {:induction false} DumpedHelloFingerprint(
    h: Hello, extra: seq<Byte>,
    text: string, before: seq<string>, header: string, gap: seq<string>, record: seq<RecordLine>, tail: seq<string>)
    requires h.Valid() && (h.extensions.None? ==> extra == [])
    requires DumpText(text, Encode(h) + extra, before, header, gap, record, tail)
    ensures Ja3s(Extract(Split(text, '\n'), false, "")) ==
      if |Encode(h) + extra| >= 50 then Some(Fingerprint(h.version, h.cipher, h.Types())) else None
  {
    ExtractionFindsMessage(text, Encode(h) + extra, before, header, gap, record, tail);
    Ja3sOfEncoding(h, extra);
  }

  // ---------------------------------------------------------------- what reaches the parser

  lemma {:induction false} HexLineChars(s: string)
    requires HexLine(s)
    ensures forall c :: c in s ==> IsHex(c) || IsSpace(c)
    decreases |s|
  {
    if |s| > 2 {
      LStripFacts(s[2..]);
      HexLineChars(LStrip(s[2..]));
      StrippedChars(s[2..]);
      forall c | c in s ensures IsHex(c) || IsSpace(c) {
        assert c == s[0] || c == s[1] || c in s[2..];
      }
    } else {
      assert s == [s[0], s[1]];
    }
  }

  lemma {:induction false} RemoveSpacesChars(s: string)
    ensures forall c :: c in RemoveSpaces(s) ==> c in s && c != ' '
  {
    if s != "" {
      RemoveSpacesChars(s[1..]);
      assert s == [s[0]] + s[1..];
    }
  }

  /** Whatever the input, the parser only ever sees hexadecimal digits and white space other than blanks. */
  lemma {:induction false} ExtractedChars(lines: seq<string>, inHello: bool, hex: string)
    requires forall c :: c in hex ==> (IsHex(c) || IsSpace(c)) && c != ' '
    ensures forall c :: c in Extract(lines, inHello, hex) ==> (IsHex(c) || IsSpace(c)) && c != ' '
    decreases |lines|
  {
    hide IsHeader, IsStop, HexLine, Strip;
    if lines != [] {
      if HexLine(Strip(lines[0])) {
        HexLineChars(Strip(lines[0]));
        RemoveSpacesChars(Strip(lines[0]));
        ExtractedChars(lines[1..], true, hex + RemoveSpaces(Strip(lines[0])));
      }
      ExtractedChars(lines[1..], true, hex);
      ExtractedChars(lines[1..], inHello, hex);
    }
  }

  /** Only blanks are taken out of a line, and nothing is reordered. */
  lemma {:induction false} RemoveSpacesExactly(a: string, c: char, b: string)
    ensures RemoveSpaces(a + [c] + b) == RemoveSpaces(a) + (if c == ' ' then "" else [c]) + RemoveSpaces(b)
    decreases |a|
  {
    if a == "" {
      assert ([c] + b)[1..] == b && "" + [c] + b == [c] + b;
    } else {
      assert (a + [c] + b)[0] == a[0] && (a + [c] + b)[1..] == a[1..] + [c] + b;
      RemoveSpacesExactly(a[1..], c, b);
    }
  }

  // ---------------------------------------------------------------- the data lines, and fields that are none

  /** Two-digit groups with white space of any kind and length between them. */
  function Spaced(groups: seq<string>, gaps: seq<string>): string
    requires |groups| == |gaps| + 1
  {
    if gaps == [] then groups[0] else groups[0] + (gaps[0] + Spaced(groups[1..], gaps[1..]))
  }

  predicate Groups(groups: seq<string>, gaps: seq<string>) {
    && |groups| == |gaps| + 1 && (forall g :: g in groups ==> |g| == 2 && IsHex(g[0]) && IsHex(g[1]))
    && (forall g :: g in gaps ==> g != "" && Blanks(g))
  }

  lemma SpacedStart(groups: seq<string>, gaps: seq<string>)
    requires Groups(groups, gaps)
    ensures var s := Spaced(groups, gaps);
      |s| >= 2 && s[..2] == groups[0] && IsHex(s[0]) && IsHex(s[1]) && !IsSpace(s[0])
  {
    assert groups[0] in groups;
  }

  /** The data lines are exactly these. */
  lemma {:induction false} SpacedIsHexLine(groups: seq<string>, gaps: seq<string>)
    requires Groups(groups, gaps)
    ensures HexLine(Spaced(groups, gaps))
    decreases |gaps|
  {
    var s := Spaced(groups, gaps);
    SpacedStart(groups, gaps);
    if gaps != [] {
      assert gaps[0] in gaps;
      var rest := Spaced(groups[1..], gaps[1..]);
      assert s[2..] == gaps[0] + rest;
      forall g | g in groups[1..] ensures g in groups {}
      forall g | g in gaps[1..] ensures g in gaps {}
      SpacedIsHexLine(groups[1..], gaps[1..]);
      SpacedStart(groups[1..], gaps[1..]);
      LStripBlanks(gaps[0], rest);
      assert s[2] == s[2..][0] == gaps[0][0] && gaps[0][0] in gaps[0];
    }
  }

  lemma {:induction false} HexLineIsSpaced(s: string) returns (groups: seq<string>, gaps: seq<string>)
    requires HexLine(s)
    ensures Groups(groups, gaps) && s == Spaced(groups, gaps)
    decreases |s|
  {
    if |s| == 2 {
      groups, gaps := [s], [];
    } else {
      LStripFacts(s[2..]);
      var rest := LStrip(s[2..]);
      var more, others := HexLineIsSpaced(rest);
      var gap := BlankFront(s[2..]);
      groups, gaps := [s[..2]] + more, [gap] + others;
      assert s == s[..2] + (gap + rest);
    }
  }

  lemma {:induction false} BlankFront(s: string) returns (gap: string)
    ensures Blanks(gap) && s == gap + LStrip(s) && (s != "" && IsSpace(s[0]) ==> gap != "")
  {
    if s != "" && IsSpace(s[0]) {
      gap := BlankFront(s[1..]);
      gap := [s[0]] + gap;
    } else {
      gap := "";
    }
  }

  /** Both cases of the letters are read alike. */
  lemma {:induction false} HexIgnoresCase(s: string)
    requires forall c :: c in s ==> IsHex(c)
    ensures (forall c :: c in Lower(s) ==> IsHex(c)) && HexValue(Lower(s)) == HexValue(s)
  {
    var t := Lower(s);
    assert |t| == |s|;
    forall i | 0 <= i < |s| ensures t[i] == LowerChar(s[i]) && s[i] in s { LowerAt(s, i); }
    if s != "" {
      var n := |s| - 1;
      assert s[n] in s && t[n] == LowerChar(s[n]) && HexVal(t[n]) == HexVal(s[n]);
      HexIgnoresCase(s[..n]);
      assert t[..n] == Lower(s[..n]) by {
        forall i | 0 <= i < n ensures t[..n][i] == Lower(s[..n])[i] { LowerAt(s[..n], i); }
      }
    }
  }

  /** A field that is no number, or no field at all, leaves a message without fingerprint. */
  lemma {:induction false} UnreadableHasNone(hex: string)
    ensures HexInt(Slice(hex, 8, 12)).None? || HexInt(Slice(hex, 76, 78)).None? ==> Ja3s(hex).None?
    ensures HexInt(Slice(hex, 76, 78)).Some? ==>
      var c := 78 + 2 * HexInt(Slice(hex, 76, 78)).value;
      && (HexInt(Slice(hex, c, c + 4)).None? ==> Ja3s(hex).None?)
      && (c + 10 <= |hex| && HexInt(Slice(hex, c + 6, c + 10)).None? ==> Ja3s(hex).None?)
  {}

  /** The three fields of a fingerprint, in order: version, cipher and the types. */
  lemma {:induction false} FingerprintFields(v: nat, c: nat, ts: seq<nat>)
    ensures var fields := Split(Fingerprint(v, c, ts), ',');
      && |fields| == 3 && PyInt(fields[0]) == Some(v) && PyInt(fields[1]) == Some(c)
      && (ts == [] ==> fields[2] == "")
      && (ts != [] ==>
            && |Split(fields[2], '-')| == |ts|
            && forall i :: 0 <= i < |ts| ==> PyInt(Split(fields[2], '-')[i]) == Some(ts[i]))
  {
    FingerprintParts(v, c, ts);
    DecimalRead(v);
    DecimalRead(c);
    DecimalsChars(ts);
    forall i | 0 <= i < |ts| ensures Decimals(ts)[i] == Decimal(ts[i]) && PyInt(Decimal(ts[i])) == Some(ts[i]) {
      DecimalsAt(ts, i);
      DecimalRead(ts[i]);
    }
    SplitEmpty(Split(Fingerprint(v, c, ts), ',')[2]);
  }

  lemma DecimalRead(n: nat)
    ensures PyInt(Decimal(n)) == Some(n)
  {
    DecimalValue(n);
    PyIntDigits(Decimal(n));
  }

  lemma {:induction false} DecimalsAt(ts: seq<nat>, i: nat)
    requires i < |ts|
    ensures |Decimals(ts)| == |ts| && Decimals(ts)[i] == Decimal(ts[i])
  {
    DecimalsChars(ts);
    if i > 0 { DecimalsAt(ts[1..], i - 1); }
  }

  lemma SplitEmpty(s: string)
    ensures s != "" ==> |Split(s, '-')| > 1 || Split(s, '-')[0] != ""
  {
    if s != "" { assert |Split(s[1..], '-')| >= 1; }
  }
}
