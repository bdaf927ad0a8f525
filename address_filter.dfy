/**
 * Which client addresses a TCP or TLS server accepts: any, one, a set, or an
 * IPv4 pattern whose octets may be `*`. Patterns are read from text such as
 * "192.168.0.*".
 */
module AddressFilters {
  import opened Num
  import opened Wrappers

  /** `std::net::IpAddr`. */
  datatype IpAddr = V4(a: u8, b: u8, c: u8, d: u8) | V6(segments: seq<u16>)

  // ---------------------------------------------------------------------------
  // Text

  /** `str::split(sep)`: the pieces between separators; there is always at least one. */
  function Split(s: string, sep: char): (r: seq<string>)
    ensures |r| >= 1
    ensures forall k :: 0 <= k < |r| ==> sep !in r[k]
    ensures Join(r, sep) == s
  {
    if s == [] then [""]
    else
      var rest := Split(s[1..], sep);
      if s[0] == sep then [""] + rest
      else [[s[0]] + rest[0]] + rest[1..]
  }

  /** The pieces put back together with the separator between them. */
  function Join(pieces: seq<string>, sep: char): string
    requires |pieces| >= 1
  {
    if |pieces| == 1 then pieces[0] else pieces[0] + [sep] + Join(pieces[1..], sep)
  }

  /** Splitting a piece without separators, then a separator, then the rest. */
  lemma {:induction false} SplitAfterPiece(piece: string, sep: char, rest: string)
    requires sep !in piece
    ensures Split(piece + [sep] + rest, sep) == [piece] + Split(rest, sep)
  {
    if piece == [] {
      assert piece + [sep] + rest == [sep] + rest;
      assert ([sep] + rest)[1..] == rest;
    } else {
      var s := piece + [sep] + rest;
      assert s[0] == piece[0] && s[1..] == piece[1..] + [sep] + rest;
      SplitAfterPiece(piece[1..], sep, rest);
      assert [piece[0]] + piece[1..] == piece;
    }
  }

  lemma {:induction false} SplitPiece(piece: string, sep: char)
    requires sep !in piece
    ensures Split(piece, sep) == [piece]
  {
    if piece != [] {
      SplitPiece(piece[1..], sep);
      assert [piece[0]] + piece[1..] == piece;
    }
  }

  /** Splitting undoes joining pieces that hold no separator. */
  lemma {:induction false} SplitJoin(pieces: seq<string>, sep: char)
    requires |pieces| >= 1 && forall k :: 0 <= k < |pieces| ==> sep !in pieces[k]
    ensures Split(Join(pieces, sep), sep) == pieces
  {
    if |pieces| == 1 {
      SplitPiece(pieces[0], sep);
    } else {
      SplitJoin(pieces[1..], sep);
      SplitAfterPiece(pieces[0], sep, Join(pieces[1..], sep));
      assert [pieces[0]] + pieces[1..] == pieces;
    }
  }

  predicate IsDigit(c: char) { '0' <= c <= '9' }

  predicate AllDigits(ds: string) { forall k :: 0 <= k < |ds| ==> IsDigit(ds[k]) }

  /** The value of a string of decimal digits. */
  function DigitsValue(ds: string): nat
    requires AllDigits(ds)
  {
    if ds == [] then 0
    else
      assert IsDigit(ds[|ds| - 1]);
      10 * DigitsValue(ds[..|ds| - 1]) + (ds[|ds| - 1] as int - '0' as int)
  }

  /**
   * `u8::from_str`: an optional `+`, then one or more decimal digits (leading
   * zeros allowed) whose value is at most 255.
   */
  function ParseU8(s: string): (r: Option<u8>)
    ensures r.Some? ==> |s| >= 1 && s != "+"
    ensures |s| >= 1 && s[0] == '-' ==> r.None?
  {
    var ds := if |s| >= 1 && s[0] == '+' then s[1..] else s;
    if ds == [] || !AllDigits(ds) then None
    else
      var v := DigitsValue(ds);
      if v <= 255 then Some(v) else None
  }

  /** A character other than a digit, past an optional leading `+`, is refused. */
  lemma NonDigitRejected(s: string, k: nat)
    requires 0 < k < |s| && !IsDigit(s[k])
    ensures ParseU8(s) == None
  {
    if s[0] == '+' {
      assert s[1..][k - 1] == s[k];
      assert !AllDigits(s[1..]);
    } else {
      assert !AllDigits(s);
    }
  }

  /** The decimal text of a byte, without leading zeros: what `u8`'s `Display` writes. */
  function Decimal(b: u8): string {
    var d2 := ((b / 100) + '0' as int) as char;
    var d1 := ((b / 10 % 10) + '0' as int) as char;
    var d0 := ((b % 10) + '0' as int) as char;
    if b >= 100 then [d2, d1, d0] else if b >= 10 then [d1, d0] else [d0]
  }

  lemma DecimalDigits(b: u8)
    ensures 1 <= |Decimal(b)| <= 3
    ensures AllDigits(Decimal(b))
    ensures DigitsValue(Decimal(b)) == b
  {
    var s := Decimal(b);
    if b >= 100 {
      assert s[..2][..1] == s[..1];
      assert DigitsValue(s[..1]) == b / 100;
      assert DigitsValue(s[..2]) == 10 * (b / 100) + b / 10 % 10;
    } else if b >= 10 {
      assert DigitsValue(s[..1]) == b / 10;
    }
  }

  /** Every byte written in decimal reads back as itself. */
  lemma ParseDecimal(b: u8)
    ensures ParseU8(Decimal(b)) == Some(b)
  {
    DecimalDigits(b);
  }

  // ---------------------------------------------------------------------------
  // WildcardIPv4

  datatype BadIpv4Wildcard = BadIpv4Wildcard

  /** An IPv4 pattern, most significant octet first; `None` is a `*`. */
  datatype WildcardIPv4 = WildcardIPv4(b3: Option<u8>, b2: Option<u8>, b1: Option<u8>, b0: Option<u8>)

  /** `get_byte`: `*` is any octet, otherwise a `u8`. */
  function GetByte(value: string): (r: Result<Option<u8>, BadIpv4Wildcard>)
    ensures value == "*" ==> r == Ok(None)
    ensures value != "*" ==> (r.Ok? <==> ParseU8(value).Some?)
    ensures value != "*" && r.Ok? ==> r.value == ParseU8(value)
  {
    if value == "*" then Ok(None)
    else
      match ParseU8(value)
      case Some(x) => Ok(Some(x))
      case None => Err(BadIpv4Wildcard)
  }

  /**
   * `from_str`: exactly four dot-separated fields, each `*` or a `u8`. The
   * fields are taken in order and a fifth one is an error.
   */
  function WildcardFromStr(s: string): (r: Result<WildcardIPv4, BadIpv4Wildcard>)
    ensures var fields := Split(s, '.');
            r.Ok? <==> |fields| == 4 && (forall k :: 0 <= k < 4 ==> GetByte(fields[k]).Ok?)
    ensures r.Ok? ==> var fields := Split(s, '.');
                      r.value == WildcardIPv4(GetByte(fields[0]).value, GetByte(fields[1]).value,
                                              GetByte(fields[2]).value, GetByte(fields[3]).value)
  {
    var fields := Split(s, '.');
    if |fields| < 1 then Err(BadIpv4Wildcard) else
    var b3 :- GetByte(fields[0]);
    if |fields| < 2 then Err(BadIpv4Wildcard) else
    var b2 :- GetByte(fields[1]);
    if |fields| < 3 then Err(BadIpv4Wildcard) else
    var b1 :- GetByte(fields[2]);
    if |fields| < 4 then Err(BadIpv4Wildcard) else
    var b0 :- GetByte(fields[3]);
    if |fields| > 4 then Err(BadIpv4Wildcard) else
    Ok(WildcardIPv4(b3, b2, b1, b0))
  }

  /** One field of a pattern as text. */
  function FieldText(b: Option<u8>): string {
    match b
    case None => "*"
    case Some(x) => Decimal(x)
  }

  /** A pattern as text, the way a user writes it. */
  function WildcardText(wc: WildcardIPv4): string {
    Join([FieldText(wc.b3), FieldText(wc.b2), FieldText(wc.b1), FieldText(wc.b0)], '.')
  }

  lemma FieldTextParses(b: Option<u8>)
    ensures '.' !in FieldText(b) && GetByte(FieldText(b)) == Ok(b)
  {
    if b.Some? {
      DecimalDigits(b.value);
      ParseDecimal(b.value);
      assert FieldText(b) != "*" by {
        assert IsDigit(FieldText(b)[0]);
      }
      assert forall k :: 0 <= k < |FieldText(b)| ==> FieldText(b)[k] != '.';
    }
  }

  /** Every pattern written as text reads back as itself. */
  lemma WildcardRoundTrip(wc: WildcardIPv4)
    ensures WildcardFromStr(WildcardText(wc)) == Ok(wc)
  {
    var fields := [FieldText(wc.b3), FieldText(wc.b2), FieldText(wc.b1), FieldText(wc.b0)];
    FieldTextParses(wc.b3);
    FieldTextParses(wc.b2);
    FieldTextParses(wc.b1);
    FieldTextParses(wc.b0);
    SplitJoin(fields, '.');
  }

  /** `matches` on one octet: a `*` matches any octet. */
  function OctetMatches(octet: u8, pattern: Option<u8>): bool {
    match pattern
    case Some(x) => octet == x
    case None => true
  }

  /** `WildcardIPv4::matches`: every octet matches its field; an IPv6 address never matches. */
  function WildcardMatches(wc: WildcardIPv4, addr: IpAddr): (r: bool)
    ensures addr.V6? ==> !r
    ensures r <==> addr.V4? && (wc.b3.Some? ==> addr.a == wc.b3.value) && (wc.b2.Some? ==> addr.b == wc.b2.value)
                   && (wc.b1.Some? ==> addr.c == wc.b1.value) && (wc.b0.Some? ==> addr.d == wc.b0.value)
  {
    match addr
    case V4(a, b, c, d) =>
      OctetMatches(a, wc.b3) && OctetMatches(b, wc.b2) && OctetMatches(c, wc.b1) && OctetMatches(d, wc.b0)
    case V6(_) => false
  }

  /** A pattern without `*` matches exactly the one address it spells. */
  lemma WildcardWithoutStars(a: u8, b: u8, c: u8, d: u8, addr: IpAddr)
    ensures WildcardMatches(WildcardIPv4(Some(a), Some(b), Some(c), Some(d)), addr) <==> addr == V4(a, b, c, d)
  {
  }

  /** "*.*.*.*" matches every IPv4 address. */
  lemma AllStars(addr: IpAddr)
    ensures WildcardMatches(WildcardIPv4(None, None, None, None), addr) <==> addr.V4?
  {
  }

  /** Test vectors of the parser. */
  lemma ParsesSubnetWildcard()
    ensures WildcardFromStr("172.17.20.*") == Ok(WildcardIPv4(Some(172), Some(17), Some(20), None))
  {
    var w := WildcardIPv4(Some(172), Some(17), Some(20), None);
    assert Decimal(172) == "172" && Decimal(17) == "17" && Decimal(20) == "20";
    assert WildcardText(w) == "172.17.20.*";
    WildcardRoundTrip(w);
  }

  lemma ParsesAllWildcards()
    ensures WildcardFromStr("*.*.*.*") == Ok(WildcardIPv4(None, None, None, None))
  {
    var w := WildcardIPv4(None, None, None, None);
    assert WildcardText(w) == "*.*.*.*";
    WildcardRoundTrip(w);
  }

  /** "192.168.0.*" matches 192.168.0.1 and not 192.168.1.1. */
  lemma WildcardMatchingWorks()
    ensures WildcardFromStr("192.168.0.*") == Ok(WildcardIPv4(Some(192), Some(168), Some(0), None))
    ensures WildcardMatches(WildcardFromStr("192.168.0.*").value, V4(192, 168, 0, 1))
    ensures !WildcardMatches(WildcardFromStr("192.168.0.*").value, V4(192, 168, 1, 1))
  {
    var w := WildcardIPv4(Some(192), Some(168), Some(0), None);
    assert Decimal(192) == "192" && Decimal(168) == "168" && Decimal(0) == "0";
    assert WildcardText(w) == "192.168.0.*";
    WildcardRoundTrip(w);
  }

  /** Five fields, an empty field, an octet over 255 and a field with letters are refused. */
  lemma RejectsFiveFields()
    ensures WildcardFromStr("*.*.*.*.*") == Err(BadIpv4Wildcard)
  {
    SplitJoin(["*", "*", "*", "*", "*"], '.');
    assert Join(["*", "*", "*", "*", "*"], '.') == "*.*.*.*.*";
  }

  lemma RejectsEmptyField()
    ensures WildcardFromStr("*.*..*.*") == Err(BadIpv4Wildcard)
  {
    SplitJoin(["*", "*", "", "*", "*"], '.');
    assert Join(["*", "*", "", "*", "*"], '.') == "*.*..*.*";
  }

  lemma LargeOctet()
    ensures GetByte("256") == Err(BadIpv4Wildcard)
  {
    assert "256"[..2] == "25" && "25"[..1] == "2";
    assert DigitsValue("256") == 256;
  }

  lemma RejectsLargeOctet()
    ensures WildcardFromStr("*.256.*.*") == Err(BadIpv4Wildcard)
  {
    LargeOctet();
    SplitJoin(["*", "256", "*", "*"], '.');
    assert Join(["*", "256", "*", "*"], '.') == "*.256.*.*";
  }

  lemma RejectsLeadingDot()
    ensures WildcardFromStr(".*.256.*.*") == Err(BadIpv4Wildcard)
  {
    SplitJoin(["", "*", "256", "*", "*"], '.');
    assert Join(["", "*", "256", "*", "*"], '.') == ".*.256.*.*";
    assert GetByte("") == Err(BadIpv4Wildcard);
  }

  lemma LettersOctet()
    ensures GetByte("1ab") == Err(BadIpv4Wildcard)
  {
    var field := "1ab";
    assert |field| == 3 && field[0] != '+' && !IsDigit(field[1]);
    NonDigitRejected(field, 1);
  }

  lemma RejectsLetters()
    ensures WildcardFromStr("1.1.1.1ab") == Err(BadIpv4Wildcard)
  {
    LettersOctet();
    SplitJoin(["1", "1", "1", "1ab"], '.');
    assert Join(["1", "1", "1", "1ab"], '.') == "1.1.1.1ab";
  }

  // ---------------------------------------------------------------------------
  // AddressFilter

  /** `AddressFilter` */
  datatype AddressFilter = Any | Exact(addr: IpAddr) | AnyOf(set_: set<IpAddr>) | WildcardIpv4(wc: WildcardIPv4)

  /** `AddressFilter::matches` */
  function Matches(filter: AddressFilter, addr: IpAddr): (r: bool)
    ensures filter.Any? ==> r
    ensures filter.Exact? ==> (r <==> addr == filter.addr)
    ensures filter.AnyOf? ==> (r <==> addr in filter.set_)
    ensures filter.WildcardIpv4? ==> r == WildcardMatches(filter.wc, addr)
  {
    match filter
    case Any => true
    case Exact(x) => x == addr
    case AnyOf(s) => addr in s
    case WildcardIpv4(wc) => WildcardMatches(wc, addr)
  }

  /** A filter of one exact address and a set holding only it accept the same clients. */
  lemma ExactIsSingleton(x: IpAddr, addr: IpAddr)
    ensures Matches(Exact(x), addr) == Matches(AnyOf({x}), addr)
  {
  }
}
