/** Parsing one Set-Cookie header (section 5.2 of RFC 6265), and printing it back. */
module Cookie {
  import opened Strings

  datatype Cookie = Cookie(
    name: string, value: string, httpOnly: bool, secure: bool, sameSite: Option<string>, domain: Option<string>,
    path: Option<string>, maxAge: Option<string>, expires: Option<string>)

  datatype Attr = Flag(name: string) | Valued(name: string, value: string)

  // ---------------------------------------------------------------- splitting

  /** The stripped parts of the header that are not blank. */
  function Parts(pieces: seq<string>): seq<string> {
    if pieces == [] then []
    else
      var front, last := pieces[..|pieces| - 1], Strip(pieces[|pieces| - 1]);
      if last != "" then Parts(front) + [last] else Parts(front)
  }

  /** Each piece gives its stripped text, a blank one nothing. */
  lemma {:induction false} PartsAddUp(a: seq<string>, piece: string, b: seq<string>)
    ensures Parts(a + [piece] + b) == Parts(a) + (if Blanks(piece) then [] else [Strip(piece)]) + Parts(b)
  {
    hide Strip, Blanks;
    if b == [] {
      assert a + [piece] + b == a + [piece] && (a + [piece])[..|a|] == a;
      BlankStrips(piece);
    } else {
      var n := |b| - 1;
      assert (a + [piece] + b)[..|a| + 1 + n] == a + [piece] + b[..n];
      PartsAddUp(a, piece, b[..n]);
    }
  }

  lemma BlankStrips(s: string)
    ensures Strip(s) == "" <==> Blanks(s)
  {
    if Blanks(s) {
      LStripBlanks(s, "");
      assert s + "" == s;
    } else {
      StripKeeps(s);
    }
  }

  function AttrOf(part: string): Attr {
    if '=' in part then Valued(Strip(Before(part, '=')), Strip(After(part, '='))) else Flag(part)
  }

  function Attrs(parts: seq<string>): (r: seq<Attr>)
    ensures |r| == |parts| && forall i :: 0 <= i < |r| ==> r[i] == AttrOf(parts[i])
  {
    seq(|parts|, i requires 0 <= i < |parts| => AttrOf(parts[i]))
  }

  // ---------------------------------------------------------------- what a header says

  predicate Named(a: Attr, key: string) { Lower(Strip(a.name)) == key }

  /** The value of the last attribute of that name, in any letter case. */
  function LastValue(attrs: seq<Attr>, key: string): Option<string> {
    if attrs == [] then None
    else
      var a := attrs[|attrs| - 1];
      if a.Valued? && Named(a, key) then Some(a.value) else LastValue(attrs[..|attrs| - 1], key)
  }

  predicate HasFlag(attrs: seq<Attr>, key: string) {
    exists i :: 0 <= i < |attrs| && attrs[i].Flag? && Named(attrs[i], key)
  }

  function CookieOf(name: string, value: string, attrs: seq<Attr>): Cookie {
    Cookie(name, value, HasFlag(attrs, "httponly"), HasFlag(attrs, "secure"), LastValue(attrs, "samesite"),
           LastValue(attrs, "domain"), LastValue(attrs, "path"), LastValue(attrs, "max-age"),
           LastValue(attrs, "expires"))
  }

  /** `None` is the empty dictionary, for a header without a name=value pair. */
  function Parse(raw: string): Option<Cookie> {
    var parts := Parts(Split(raw, ';'));
    if parts == [] || '=' !in parts[0] then None
    else Some(CookieOf(Strip(Before(parts[0], '=')), Strip(After(parts[0], '=')), Attrs(parts[1..])))
  }

  function SetValued(c: Cookie, key: string, v: string): Cookie {
    if key == "samesite" then c.(sameSite := Some(v))
    else if key == "domain" then c.(domain := Some(v))
    else if key == "path" then c.(path := Some(v))
    else if key == "max-age" then c.(maxAge := Some(v))
    else if key == "expires" then c.(expires := Some(v))
    else c
  }

  function SetFlag(c: Cookie, key: string): Cookie {
    if key == "httponly" then c.(httpOnly := true) else if key == "secure" then c.(secure := true) else c
  }

  lemma LastValueSnoc(attrs: seq<Attr>, a: Attr, key: string)
    ensures LastValue(attrs + [a], key) == if a.Valued? && Named(a, key) then Some(a.value) else LastValue(attrs, key)
  {
    assert (attrs + [a])[..|attrs|] == attrs;
  }

  lemma HasFlagSnoc(attrs: seq<Attr>, a: Attr, key: string)
    ensures HasFlag(attrs + [a], key) <==> HasFlag(attrs, key) || (a.Flag? && Named(a, key))
  {
    var more := attrs + [a];
    if HasFlag(attrs, key) {
      var i :| 0 <= i < |attrs| && attrs[i].Flag? && Named(attrs[i], key);
      assert more[i].Flag? && Named(more[i], key);
    }
    if a.Flag? && Named(a, key) { assert more[|attrs|].Flag? && Named(more[|attrs|], key); }
  }

  /** One more attribute overwrites its field. */
  lemma AttrStep(name: string, value: string, attrs: seq<Attr>, a: Attr)
    ensures var c, key := CookieOf(name, value, attrs), Lower(Strip(a.name));
      CookieOf(name, value, attrs + [a]) == if a.Valued? then SetValued(c, key, a.value) else SetFlag(c, key)
  {
    hide LastValue, HasFlag, Lower, Strip;
    HasFlagSnoc(attrs, a, "httponly");
    HasFlagSnoc(attrs, a, "secure");
    LastValueSnoc(attrs, a, "samesite");
    LastValueSnoc(attrs, a, "domain");
    LastValueSnoc(attrs, a, "path");
    LastValueSnoc(attrs, a, "max-age");
    LastValueSnoc(attrs, a, "expires");
  }

  method CollectParts(raw: string) returns (parts: seq<string>)
    ensures parts == Parts(Split(raw, ';'))
  {
    var pieces := Split(raw, ';');
    parts := [];
    for i := 0 to |pieces|
      invariant parts == Parts(pieces[..i])
    {
      assert pieces[..i + 1][..i] == pieces[..i];
      var p := Strip(pieces[i]);
      if p != "" { parts := parts + [p]; }
    }
    assert pieces[..|pieces|] == pieces;
  }

  /** `_parse_set_cookie`: for every header, each valued field shows the last attribute of its name. */
  method ParseSetCookie(raw: string) returns (cookie: Option<Cookie>)
    ensures cookie == Parse(raw)
  {
    hide CookieOf, Lower, Strip, Before, After, Split, Parts;
    var parts := CollectParts(raw);
    if parts == [] { return None; }
    if '=' !in parts[0] { return None; }
    var name, value := Strip(Before(parts[0], '=')), Strip(After(parts[0], '='));
    var c := Cookie(name, value, false, false, None, None, None, None, None);
    NoAttrs(name, value);
    ghost var attrs := Attrs(parts[1..]);
    for i := 1 to |parts|
      invariant c == CookieOf(name, value, attrs[..i - 1])
    {
      var part := parts[i];
      assert attrs[..i] == attrs[..i - 1] + [AttrOf(part)];
      AttrStep(name, value, attrs[..i - 1], AttrOf(part));
      StripStrip(Before(part, '='));
      if '=' in part {
        c := SetValued(c, Lower(Strip(Before(part, '='))), Strip(After(part, '=')));
      } else {
        c := SetFlag(c, Lower(Strip(part)));
      }
    }
    assert attrs[..|parts| - 1] == attrs;
    return Some(c);
  }

  lemma NoAttrs(name: string, value: string)
    ensures CookieOf(name, value, []) == Cookie(name, value, false, false, None, None, None, None, None)
  {}

  lemma StripStrip(s: string)
    ensures Strip(Strip(s)) == Strip(s)
  {
    StripIsClean(s);
    StripClean(Strip(s));
  }

  // ---------------------------------------------------------------- printing

  /** A field of the header: no semicolon, no white space at either end. */
  predicate Field(s: string) { ';' !in s && Clean(s) }

  predicate Printable(a: Attr) {
    Field(a.name) && '=' !in a.name && if a.Valued? then Field(a.value) else a.name != ""
  }

  function Text(a: Attr): string { if a.Valued? then a.name + ['='] + a.value else a.name }

  /** White space around the text of an attribute. */
  datatype Padded = Padded(left: string, attr: Attr, right: string) {
    predicate Ok() { Blanks(left) && Blanks(right) && Printable(attr) }
    function Print(): string { left + (Text(attr) + right) }
  }

  function Prints(ps: seq<Padded>): (r: seq<string>)
    ensures |r| == |ps| && forall i :: 0 <= i < |r| ==> r[i] == ps[i].Print()
  {
    seq(|ps|, i requires 0 <= i < |ps| => ps[i].Print())
  }

  function Header(ps: seq<Padded>): string { Join(Prints(ps), ";") }

  lemma PrintedText(a: Attr)
    requires Printable(a)
    ensures Text(a) != "" && Field(Text(a)) && AttrOf(Text(a)) == a
  {
    if a.Valued? {
      BeforeAfter(a.name, '=', a.value);
      StripClean(a.name);
      StripClean(a.value);
    }
  }

  lemma PaddedPart(p: Padded)
    requires p.Ok()
    ensures Strip(p.Print()) == Text(p.attr) && ';' !in p.Print()
  {
    var text := Text(p.attr);
    PrintedText(p.attr);
    assert (text + p.right)[0] == text[0];
    LStripBlanks(p.left, text + p.right);
    RStripBlanks(text, p.right);
    assert !IsSpace(';');
  }

  function Texts(ps: seq<Padded>): (r: seq<string>)
    ensures |r| == |ps| && forall i :: 0 <= i < |r| ==> r[i] == Text(ps[i].attr)
  {
    seq(|ps|, i requires 0 <= i < |ps| => Text(ps[i].attr))
  }

  lemma {:induction false} PartsOfPrints(ps: seq<Padded>)
    requires forall i :: 0 <= i < |ps| ==> ps[i].Ok()
    ensures Parts(Prints(ps)) == Texts(ps)
  {
    hide Strip, Padded.Print, Text, Padded.Ok;
    if ps != [] {
      var n := |ps| - 1;
      PartsOfPrints(ps[..n]);
      assert Prints(ps)[..n] == Prints(ps[..n]) && Texts(ps) == Texts(ps[..n]) + [Text(ps[n].attr)];
      PaddedPart(ps[n]);
      OkPrintable(ps[n]);
      PrintedText(ps[n].attr);
    }
  }

  lemma OkPrintable(p: Padded)
    requires p.Ok()
    ensures Printable(p.attr)
  {}

  function AttrsOf(ps: seq<Padded>): (r: seq<Attr>)
    ensures |r| == |ps| && forall i :: 0 <= i < |r| ==> r[i] == ps[i].attr
  {
    seq(|ps|, i requires 0 <= i < |ps| => ps[i].attr)
  }

  /**
    Parsing a printed header, with white space around any of its fields: the first pair is the name
    and the value, and the rest are the attributes that were printed.
   */
  lemma {:induction false} ParsePrinted(ps: seq<Padded>)
    requires ps != [] && ps[0].attr.Valued? && forall i :: 0 <= i < |ps| ==> ps[i].Ok()
    ensures Parse(Header(ps)) == Some(CookieOf(ps[0].attr.name, ps[0].attr.value, AttrsOf(ps)[1..]))
  {
    hide CookieOf, Strip, Padded.Print, Padded.Ok, Split, Join;
    forall p | p in Prints(ps) ensures ';' !in p {
      var i :| 0 <= i < |ps| && Prints(ps)[i] == p;
      PaddedPart(ps[i]);
    }
    SplitJoin(Prints(ps), ';');
    PartsOfPrints(ps);
    forall i | 0 <= i < |ps| ensures AttrOf(Texts(ps)[i]) == ps[i].attr {
      OkPrintable(ps[i]);
      PrintedText(ps[i].attr);
    }
    assert AttrOf(Texts(ps)[0]) == ps[0].attr;
    assert Attrs(Texts(ps)[1..]) == AttrsOf(ps)[1..];
    assert '=' in Text(ps[0].attr);
  }

  // ---------------------------------------------------------------- any order, any letter case

  /** No attribute name occurs twice, in whatever letter case. */
  predicate DistinctNames(attrs: seq<Attr>) {
    forall i, j :: 0 <= i < j < |attrs| ==> !Named(attrs[j], Lower(Strip(attrs[i].name)))
  }

  predicate HasValue(attrs: seq<Attr>, key: string, v: string) {
    exists a :: a in attrs && a.Valued? && a.value == v && Named(a, key)
  }

  lemma {:induction false} LastValueUnique(attrs: seq<Attr>, key: string, v: string)
    requires DistinctNames(attrs)
    ensures LastValue(attrs, key) == Some(v) <==> HasValue(attrs, key, v)
  {
    hide Lower, Strip;
    if attrs != [] {
      var n := |attrs| - 1;
      LastValueUnique(attrs[..n], key, v);
      assert attrs == attrs[..n] + [attrs[n]];
      if HasValue(attrs[..n], key, v) {
        var a :| a in attrs[..n] && a.Valued? && a.value == v && Named(a, key);
        var i :| 0 <= i < n && attrs[..n][i] == a;
        assert !Named(attrs[n], Lower(Strip(attrs[i].name)));
      }
      if HasValue(attrs, key, v) {
        var a :| a in attrs && a.Valued? && a.value == v && Named(a, key);
        assert a in attrs[..n] || a == attrs[n];
      }
      if attrs[n].Valued? && Named(attrs[n], key) { assert attrs[n] in attrs; }
    }
  }

  /** The attributes say what the cookie's fields say. */
  ghost predicate Describes(attrs: seq<Attr>, c: Cookie) {
    && (forall v :: c.sameSite == Some(v) <==> HasValue(attrs, "samesite", v))
    && (forall v :: c.domain == Some(v) <==> HasValue(attrs, "domain", v))
    && (forall v :: c.path == Some(v) <==> HasValue(attrs, "path", v))
    && (forall v :: c.maxAge == Some(v) <==> HasValue(attrs, "max-age", v))
    && (forall v :: c.expires == Some(v) <==> HasValue(attrs, "expires", v))
    && (c.httpOnly <==> HasFlag(attrs, "httponly")) && (c.secure <==> HasFlag(attrs, "secure"))
  }

  lemma SameOption(x: Option<string>, attrs: seq<Attr>, key: string)
    requires DistinctNames(attrs) && forall v :: x == Some(v) <==> HasValue(attrs, key, v)
    ensures LastValue(attrs, key) == x
  {
    hide DistinctNames, HasValue;
    var y := LastValue(attrs, key);
    if x.Some? { LastValueUnique(attrs, key, x.value); }
    if y.Some? { LastValueUnique(attrs, key, y.value); }
  }

  /**
    Every cookie whose fields can be written in a header is read back from it, with the attributes
    in any order, their names in any letter case, any unknown attributes among them and any white
    space around the fields.
   */
  lemma {:induction false} RoundTrip(c: Cookie, ps: seq<Padded>)
    requires ps != [] && forall i :: 0 <= i < |ps| ==> ps[i].Ok()
    requires ps[0].attr == Valued(c.name, c.value)
    requires DistinctNames(AttrsOf(ps)[1..]) && Describes(AttrsOf(ps)[1..], c)
    ensures Parse(Header(ps)) == Some(c)
  {
    hide DistinctNames, HasValue, LastValue, HasFlag, Header, Parse, Padded.Ok;
    var attrs := AttrsOf(ps)[1..];
    ParsePrinted(ps);
    SameOption(c.sameSite, attrs, "samesite");
    SameOption(c.domain, attrs, "domain");
    SameOption(c.path, attrs, "path");
    SameOption(c.maxAge, attrs, "max-age");
    SameOption(c.expires, attrs, "expires");
  }

  // ---------------------------------------------------------------- the canonical header

  function Opt(key: string, v: Option<string>): seq<Attr> { if v.Some? then [Valued(key, v.value)] else [] }
  function OptFlag(key: string, b: bool): seq<Attr> { if b then [Flag(key)] else [] }

  function CookieAttrs(c: Cookie): seq<Attr> {
    OptFlag("httponly", c.httpOnly) + OptFlag("secure", c.secure) + Opt("samesite", c.sameSite) +
      Opt("domain", c.domain)
    + Opt("path", c.path) + Opt("max-age", c.maxAge) + Opt("expires", c.expires)
  }

  function Canonical(attrs: seq<Attr>): (r: seq<Padded>)
    ensures |r| == |attrs| && forall i :: 0 <= i < |r| ==> r[i] == Padded(if i == 0 then "" else " ", attrs[i], "")
  {
    seq(|attrs|, i requires 0 <= i < |attrs| => Padded(if i == 0 then "" else " ", attrs[i], ""))
  }

  /** The header of a cookie: "name=value; httponly; path=/", say. */
  function PrintCookie(c: Cookie): string { Header(Canonical([Valued(c.name, c.value)] + CookieAttrs(c))) }

  predicate FieldOrNone(v: Option<string>) { v.Some? ==> Field(v.value) }

  /** Every field of the cookie can be written in a header. */
  predicate PrintableCookie(c: Cookie) {
    && Field(c.name) && '=' !in c.name && Field(c.value) && FieldOrNone(c.sameSite) && FieldOrNone(c.domain)
    && FieldOrNone(c.path) && FieldOrNone(c.maxAge) && FieldOrNone(c.expires)
  }

  /** The attribute names of the source. */
  predicate KnownName(key: string) {
    key in {"httponly", "secure", "samesite", "domain", "path", "max-age", "expires"}
  }

  predicate LowerName(key: string) { key != "" && forall c :: c in key ==> 'a' <= c <= 'z' || c == '-' }

  lemma KnownIsLower(key: string)
    requires KnownName(key)
    ensures LowerName(key)
  {}

  lemma LowerNames(key: string)
    requires LowerName(key)
    ensures Lower(Strip(key)) == key && key != "" && Field(key) && '=' !in key
  {
    assert key[0] in key && key[|key| - 1] in key;
    StripClean(key);
    LowerPlain(key);
  }

  lemma KnownNames(key: string)
    requires KnownName(key)
    ensures Lower(Strip(key)) == key && key != "" && Field(key) && '=' !in key
  {
    KnownIsLower(key);
    hide KnownName;
    LowerNames(key);
  }

  lemma OptStep(name: string, value: string, attrs: seq<Attr>, key: string, v: Option<string>)
    requires KnownName(key)
    ensures var c := CookieOf(name, value, attrs);
      CookieOf(name, value, attrs + Opt(key, v)) == if v.Some? then SetValued(c, key, v.value) else c
  {
    hide CookieOf, Lower, Strip;
    KnownNames(key);
    if v.Some? { AttrStep(name, value, attrs, Valued(key, v.value)); } else { assert attrs + [] == attrs; }
  }

  lemma FlagStep(name: string, value: string, attrs: seq<Attr>, key: string, b: bool)
    requires KnownName(key)
    ensures var c := CookieOf(name, value, attrs);
      CookieOf(name, value, attrs + OptFlag(key, b)) == if b then SetFlag(c, key) else c
  {
    hide CookieOf, Lower, Strip;
    KnownNames(key);
    if b { AttrStep(name, value, attrs, Flag(key)); } else { assert attrs + [] == attrs; }
  }

  lemma AttrsOfCookie(c: Cookie)
    ensures CookieOf(c.name, c.value, CookieAttrs(c)) == c
  {
    hide CookieOf;
    NoAttrs(c.name, c.value);
    var a1 := OptFlag("httponly", c.httpOnly);
    assert [] + a1 == a1;
    FlagStep(c.name, c.value, [], "httponly", c.httpOnly);
    FlagStep(c.name, c.value, a1, "secure", c.secure);
    var a2 := a1 + OptFlag("secure", c.secure);
    OptStep(c.name, c.value, a2, "samesite", c.sameSite);
    var a3 := a2 + Opt("samesite", c.sameSite);
    OptStep(c.name, c.value, a3, "domain", c.domain);
    var a4 := a3 + Opt("domain", c.domain);
    OptStep(c.name, c.value, a4, "path", c.path);
    var a5 := a4 + Opt("path", c.path);
    OptStep(c.name, c.value, a5, "max-age", c.maxAge);
    OptStep(c.name, c.value, a5 + Opt("max-age", c.maxAge), "expires", c.expires);
  }

  lemma OptPrintable(key: string, v: Option<string>)
    requires KnownName(key) && FieldOrNone(v)
    ensures forall a :: a in Opt(key, v) ==> Printable(a)
  {
    KnownNames(key);
  }

  lemma FlagPrintable(key: string, b: bool)
    requires KnownName(key)
    ensures forall a :: a in OptFlag(key, b) ==> Printable(a)
  {
    KnownNames(key);
  }

  lemma AttrsPrintable(c: Cookie)
    requires PrintableCookie(c)
    ensures forall a :: a in CookieAttrs(c) ==> Printable(a)
  {
    hide Printable, Field;
    FlagPrintable("httponly", c.httpOnly);
    FlagPrintable("secure", c.secure);
    OptPrintable("samesite", c.sameSite);
    OptPrintable("domain", c.domain);
    OptPrintable("path", c.path);
    OptPrintable("max-age", c.maxAge);
    OptPrintable("expires", c.expires);
  }

  /** Parsing the canonical header of a cookie gives the cookie back, whenever its fields can be written in a header. */
  lemma {:induction false} PrintThenParse(c: Cookie)
    requires PrintableCookie(c)
    ensures Parse(PrintCookie(c)) == Some(c)
  {
    hide Parse, Header, CookieOf, CookieAttrs, Field, KnownName;
    var attrs := [Valued(c.name, c.value)] + CookieAttrs(c);
    var ps := Canonical(attrs);
    AttrsPrintable(c);
    forall i | 0 <= i < |ps| ensures ps[i].Ok() {
      assert i > 0 ==> attrs[i] == CookieAttrs(c)[i - 1] && attrs[i] in CookieAttrs(c);
    }
    ParsePrinted(ps);
    assert AttrsOf(ps)[1..] == CookieAttrs(c);
    AttrsOfCookie(c);
  }

  // ---------------------------------------------------------------- repeated attributes

  lemma {:induction false} LastValueAppend(x: seq<Attr>, y: seq<Attr>, key: string)
    ensures LastValue(x + y, key) == if LastValue(y, key).Some? then LastValue(y, key) else LastValue(x, key)
  {
    hide Named;
    if y == [] {
      assert x + y == x;
    } else {
      var n := |y| - 1;
      LastValueAppend(x, y[..n], key);
      assert x + y == (x + y[..n]) + [y[n]] && y == y[..n] + [y[n]];
      LastValueSnoc(x + y[..n], y[n], key);
      LastValueSnoc(y[..n], y[n], key);
    }
  }

  lemma HasFlagAppend(x: seq<Attr>, y: seq<Attr>, key: string)
    ensures HasFlag(x + y, key) <==> HasFlag(x, key) || HasFlag(y, key)
  {
    hide Named;
    var all := x + y;
    if HasFlag(x, key) {
      var i :| 0 <= i < |x| && x[i].Flag? && Named(x[i], key);
      assert all[i].Flag? && Named(all[i], key);
    }
    if HasFlag(y, key) {
      var i :| 0 <= i < |y| && y[i].Flag? && Named(y[i], key);
      assert all[|x| + i].Flag? && Named(all[|x| + i], key);
    }
    if HasFlag(all, key) {
      var i :| 0 <= i < |all| && all[i].Flag? && Named(all[i], key);
      assert if i < |x| then all[i] == x[i] else all[i] == y[i - |x|];
    }
  }

  /** The same name, in whatever letter case. */
  predicate SameName(a: Attr, b: Attr) { Lower(Strip(a.name)) == Lower(Strip(b.name)) }

  lemma EarlierValueIsLost(pre: seq<Attr>, a: Attr, mid: seq<Attr>, b: Attr, post: seq<Attr>, key: string)
    requires a.Valued? && b.Valued? && SameName(a, b)
    ensures LastValue(pre + ([a] + (mid + ([b] + post))), key) == LastValue(pre + (mid + ([b] + post)), key)
    ensures HasFlag(pre + ([a] + (mid + ([b] + post))), key) <==> HasFlag(pre + (mid + ([b] + post)), key)
  {
    hide HasFlag, Lower, Strip;
    var tail := mid + ([b] + post);
    LastValueAppend(pre, [a] + tail, key);
    LastValueAppend([a], tail, key);
    LastValueAppend(pre, tail, key);
    LastValueAppend(mid, [b] + post, key);
    LastValueAppend([b], post, key);
    LastValueSnoc([], a, key);
    LastValueSnoc([], b, key);
    assert [] + [a] == [a] && [] + [b] == [b];
    HasFlagAppend(pre, [a] + tail, key);
    HasFlagAppend([a], tail, key);
    HasFlagAppend(pre, tail, key);
    HasFlagSnoc([], a, key);
    NoFlags(key);
  }

  lemma NoFlags(key: string)
    ensures !HasFlag([], key)
  {}

  /** Of a valued attribute that is repeated, anywhere and in any letter case, only the last value counts. */
  lemma {:induction false} LastWins(
    name: string, value: string, pre: seq<Attr>, a: Attr, mid: seq<Attr>, b: Attr, post: seq<Attr>)
    requires a.Valued? && b.Valued? && SameName(a, b)
    ensures CookieOf(name, value, pre + ([a] + (mid + ([b] + post)))) ==
      CookieOf(name, value, pre + (mid + ([b] + post)))
  {
    hide LastValue, HasFlag, SameName;
    EarlierValueIsLost(pre, a, mid, b, post, "httponly");
    EarlierValueIsLost(pre, a, mid, b, post, "secure");
    EarlierValueIsLost(pre, a, mid, b, post, "samesite");
    EarlierValueIsLost(pre, a, mid, b, post, "domain");
    EarlierValueIsLost(pre, a, mid, b, post, "path");
    EarlierValueIsLost(pre, a, mid, b, post, "max-age");
    EarlierValueIsLost(pre, a, mid, b, post, "expires");
  }

  /** Unlike sections 5.2.5 and 5.2.6 of RFC 6265, a flag written with a value is not a flag. */
  lemma {:induction false} ValuedFlagIgnored(name: string, value: string, attrs: seq<Attr>, a: Attr, v: string)
    requires a.Flag? && (Named(a, "secure") || Named(a, "httponly"))
    ensures CookieOf(name, value, attrs + [Valued(a.name, v)]) == CookieOf(name, value, attrs)
  {
    hide CookieOf, Lower, Strip;
    AttrStep(name, value, attrs, Valued(a.name, v));
  }
}
