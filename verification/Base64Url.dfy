/** Unpadded base64url tokens, and the console lookup that reads a host and a port out of one. */
module Base64Url {
  import opened Wrappers
  import opened Decimals
  import opened Utf8

  // ----- Encoding (sections 4 and 5 of RFC 4648) -----

  function Symbol(n: nat): (c: char)
    requires n < 64
    ensures c != '='
  {
    if n < 26 then 'A' + n as char
    else if n < 52 then 'a' + (n - 26) as char
    else if n < 62 then '0' + (n - 52) as char
    else if n == 62 then '-' else '_'
  }

  /** Both alphabets are read: the URL-safe symbols are first translated to the plain ones. */
  function SymbolValue(c: char): (r: Option<nat>)
    ensures r.Some? ==> r.value < 64
  {
    if 'A' <= c <= 'Z' then Some(c as int - 'A' as int)
    else if 'a' <= c <= 'z' then Some(c as int - 'a' as int + 26)
    else if '0' <= c <= '9' then Some(c as int - '0' as int + 52)
    else if c == '-' || c == '+' then Some(62)
    else if c == '_' || c == '/' then Some(63)
    else None
  }

  lemma SymbolRoundTrip(n: nat)
    requires n < 64
    ensures SymbolValue(Symbol(n)) == Some(n)
  {
  }

  /** The four symbols of a full group of three bytes. */
  function Group(a: Byte, b: Byte, c: Byte): (t: string)
    ensures |t| == 4 && t[3] != '='
  {
    [Symbol(a / 4), Symbol(a % 4 * 16 + b / 16), Symbol(b % 16 * 4 + c / 64), Symbol(c % 64)]
  }

  /** `base64.urlsafe_b64encode`. */
  function UrlsafeB64Encode(s: Bytes): string {
    if s == [] then ""
    else if |s| == 1 then [Symbol(s[0] / 4), Symbol(s[0] % 4 * 16), '=', '=']
    else if |s| == 2 then [Symbol(s[0] / 4), Symbol(s[0] % 4 * 16 + s[1] / 16), Symbol(s[1] % 16 * 4), '=']
    else Group(s[0], s[1], s[2])
         + UrlsafeB64Encode(s[3..])
  }

  /** `re.sub(r'=+\Z', '', t)`. */
  function StripPadding(t: string): string {
    if t != "" && t[|t| - 1] == '=' then StripPadding(t[..|t| - 1]) else t
  }

  function EncodeBase64Url(s: Bytes): string {
    StripPadding(UrlsafeB64Encode(s))
  }

  // ----- Decoding, as the lenient decoder of the Python library does it -----

  /**
   * Characters outside the alphabet are passed over, and padding ends the input once it completes a
   * group; `None` is the exception for an incomplete one. `quad` counts the symbols of the current
   * group, `left` holds the bits not yet written.
   */
  function LenientDecode(t: string, quad: nat, left: nat, pads: nat, out: Bytes): Option<Bytes>
    requires quad < 4 && left < (if quad == 1 then 64 else if quad == 2 then 16 else if quad == 3 then 4 else 1)
  {
    if t == "" then (if quad == 0 then Some(out) else None)
    else if t[0] == '=' then
      if quad >= 2 && quad + pads + 1 >= 4 then Some(out)
      else LenientDecode(t[1..], quad, left, if quad >= 2 then pads + 1 else pads, out)
    else
      match SymbolValue(t[0])
      case None => LenientDecode(t[1..], quad, left, pads, out)
      case Some(v) =>
        if quad == 0 then LenientDecode(t[1..], 1, v, 0, out)
        else if quad == 1 then LenientDecode(t[1..], 2, v % 16, 0, out + [left * 4 + v / 16])
        else if quad == 2 then LenientDecode(t[1..], 3, v % 4, 0, out + [left * 16 + v / 4])
        else LenientDecode(t[1..], 0, 0, 0, out + [left * 64 + v])
  }

  function Padding(n: nat): string {
    if n == 0 then "" else "=" + Padding(n - 1)
  }

  /** Between one and four padding characters are appended. */
  function DecodeBase64Url(t: string): Option<Bytes> {
    LenientDecode(t + Padding(4 - |t| % 4), 0, 0, 0, [])
  }

  // ----- Round trip -----

  /** The encoded text without padding, group by group. */
  function Unpadded(s: Bytes): string {
    if s == [] then ""
    else if |s| == 1 then [Symbol(s[0] / 4), Symbol(s[0] % 4 * 16)]
    else if |s| == 2 then [Symbol(s[0] / 4), Symbol(s[0] % 4 * 16 + s[1] / 16), Symbol(s[1] % 16 * 4)]
    else Group(s[0], s[1], s[2])
         + Unpadded(s[3..])
  }

  function Tail(n: nat): nat {
    match n % 3 case 0 => 0 case 1 => 2 case _ => 1
  }

  lemma {:induction false} PaddedIs(s: Bytes)
    ensures UrlsafeB64Encode(s) == Unpadded(s) + Padding(Tail(|s|))
  {
    hide Symbol, Group;
    if |s| >= 3 {
      PaddedIs(s[3..]);
      assert |s[3..]| % 3 == |s| % 3;
    } else {
      assert Padding(1) == "=" + Padding(0) && Padding(2) == "=" + Padding(1);
      assert s == [] ==> Unpadded(s) + Padding(0) == "";
      assert |s| == 1 ==> Unpadded(s) + Padding(2) == UrlsafeB64Encode(s);
      assert |s| == 2 ==> Unpadded(s) + Padding(1) == UrlsafeB64Encode(s);
    }
  }

  lemma {:induction false} UnpaddedShape(s: Bytes)
    ensures Unpadded(s) != "" ==> Unpadded(s)[|Unpadded(s)| - 1] != '='
    ensures |Unpadded(s)| % 4 == (if |s| % 3 == 0 then 0 else 1 + |s| % 3)
    ensures s != [] ==> Unpadded(s) != ""
  {
    hide Symbol, Group;
    if |s| >= 3 {
      UnpaddedShape(s[3..]);
      var g, u, t := Group(s[0], s[1], s[2]), Unpadded(s[3..]), Unpadded(s);
      hide Unpadded;
      assert t == g + u && |t| == 4 + |u|;
      assert |s[3..]| % 3 == |s| % 3;
      assert t[|t| - 1] == if u == "" then g[3] else u[|u| - 1];
    } else if |s| == 2 {
      assert |Unpadded(s)| == 3;
    } else if |s| == 1 {
      assert |Unpadded(s)| == 2;
    }
  }

  lemma {:induction false} StripIs(t: string, n: nat)
    requires t != "" ==> t[|t| - 1] != '='
    ensures StripPadding(t + Padding(n)) == t
  {
    PaddingEnds(n);
    if n == 0 {
      assert t + Padding(0) == t;
    } else {
      var u := t + Padding(n);
      assert u[..|u| - 1] == t + Padding(n - 1);
      StripIs(t, n - 1);
    }
  }

  lemma {:induction false} PaddingEnds(n: nat)
    ensures |Padding(n)| == n && forall i :: 0 <= i < n ==> Padding(n)[i] == '='
    ensures n > 0 ==> Padding(n)[..n - 1] == Padding(n - 1)
  {
    if n > 0 {
      PaddingEnds(n - 1);
    }
  }

  lemma {:induction false} EncodedIs(s: Bytes)
    ensures EncodeBase64Url(s) == Unpadded(s)
  {
    PaddedIs(s);
    UnpaddedShape(s);
    StripIs(Unpadded(s), Tail(|s|));
  }

  lemma {:induction false} DecodeSymbol(n: nat, rest: string, quad: nat, left: nat, pads: nat, out: Bytes)
    requires n < 64
    requires quad < 4 && left < (if quad == 1 then 64 else if quad == 2 then 16 else if quad == 3 then 4 else 1)
    ensures LenientDecode([Symbol(n)] + rest, quad, left, pads, out)
         == if quad == 0 then LenientDecode(rest, 1, n, 0, out)
            else if quad == 1 then LenientDecode(rest, 2, n % 16, 0, out + [left * 4 + n / 16])
            else if quad == 2 then LenientDecode(rest, 3, n % 4, 0, out + [left * 16 + n / 4])
            else LenientDecode(rest, 0, 0, 0, out + [left * 64 + n])
  {
    SymbolRoundTrip(n);
    assert ([Symbol(n)] + rest)[1..] == rest;
    hide Symbol, SymbolValue;
  }

  lemma {:induction false} DecodePad(rest: string, quad: nat, left: nat, pads: nat, out: Bytes)
    requires quad < 4 && left < (if quad == 1 then 64 else if quad == 2 then 16 else if quad == 3 then 4 else 1)
    ensures LenientDecode("=" + rest, quad, left, pads, out)
         == if quad >= 2 && quad + pads + 1 >= 4 then Some(out)
            else LenientDecode(rest, quad, left, if quad >= 2 then pads + 1 else pads, out)
  {
    assert ("=" + rest)[1..] == rest;
  }

  /** The text of one byte, and its padding, at the end of the input. */
  lemma {:induction false} DecodeOne(a: Byte, out: Bytes)
    ensures LenientDecode(Unpadded([a]) + Padding(2), 0, 0, 0, out) == Some(out + [a])
  {
    hide Symbol, LenientDecode;
    var x, y := a / 4, a % 4 * 16;
    assert Unpadded([a]) + Padding(2) == [Symbol(x)] + ([Symbol(y)] + Padding(2));
    DecodeSymbol(x, [Symbol(y)] + Padding(2), 0, 0, 0, out);
    DecodeSymbol(y, Padding(2), 1, x, 0, out);
    assert x * 4 + y / 16 == a && y % 16 == 0;
    DecodePad(Padding(1), 2, 0, 0, out + [a]);
    DecodePad(Padding(0), 2, 0, 1, out + [a]);
  }

  lemma {:induction false} DecodeTwo(a: Byte, b: Byte, out: Bytes)
    ensures LenientDecode(Unpadded([a, b]) + Padding(1), 0, 0, 0, out) == Some(out + [a, b])
  {
    hide Symbol, LenientDecode;
    var x, y, z := a / 4, a % 4 * 16 + b / 16, b % 16 * 4;
    var t2 := [Symbol(z)] + Padding(1);
    assert Unpadded([a, b]) + Padding(1) == [Symbol(x)] + ([Symbol(y)] + t2);
    DecodeSymbol(x, [Symbol(y)] + t2, 0, 0, 0, out);
    DecodeSymbol(y, t2, 1, x, 0, out);
    assert x * 4 + y / 16 == a && y % 16 == b / 16;
    DecodeSymbol(z, Padding(1), 2, b / 16, 0, out + [a]);
    assert b / 16 * 16 + z / 4 == b && z % 4 == 0;
    DecodePad(Padding(0), 3, 0, 0, out + [a] + [b]);
    assert out + [a] + [b] == out + [a, b];
  }

  lemma {:induction false} DecodeThree(a: Byte, b: Byte, c: Byte, rest: string, out: Bytes)
    ensures LenientDecode(Group(a, b, c) + rest, 0, 0, 0, out) == LenientDecode(rest, 0, 0, 0, out + [a, b, c])
  {
    hide Symbol, LenientDecode;
    var x, y, z, w := a / 4, a % 4 * 16 + b / 16, b % 16 * 4 + c / 64, c % 64;
    var t3 := [Symbol(w)] + rest;
    var t2 := [Symbol(z)] + t3;
    assert Group(a, b, c) + rest == [Symbol(x)] + ([Symbol(y)] + t2);
    DecodeSymbol(x, [Symbol(y)] + t2, 0, 0, 0, out);
    DecodeSymbol(y, t2, 1, x, 0, out);
    assert x * 4 + y / 16 == a && y % 16 == b / 16;
    DecodeSymbol(z, t3, 2, b / 16, 0, out + [a]);
    assert b / 16 * 16 + z / 4 == b && z % 4 == c / 64;
    DecodeSymbol(w, rest, 3, c / 64, 0, out + [a] + [b]);
    assert c / 64 * 64 + w == c;
    assert out + [a] + [b] + [c] == out + [a, b, c];
  }

  lemma {:induction false} DecodeFour(out: Bytes)
    ensures LenientDecode(Padding(4), 0, 0, 0, out) == Some(out)
  {
    DecodePad(Padding(3), 0, 0, 0, out);
    DecodePad(Padding(2), 0, 0, 0, out);
    DecodePad(Padding(1), 0, 0, 0, out);
    DecodePad(Padding(0), 0, 0, 0, out);
  }

  lemma {:induction false} DecodeUnpadded(s: Bytes, out: Bytes)
    ensures LenientDecode(Unpadded(s) + Padding(if |s| % 3 == 0 then 4 else Tail(|s|)), 0, 0, 0, out) == Some(out + s)
  {
    hide LenientDecode, Symbol, Group, Padding;
    if s == [] {
      DecodeFour(out);
      assert out + [] == out && "" + Padding(4) == Padding(4);
    } else if |s| == 1 {
      assert s == [s[0]];
      DecodeOne(s[0], out);
    } else if |s| == 2 {
      assert s == [s[0], s[1]];
      DecodeTwo(s[0], s[1], out);
    } else {
      var g, rest := [s[0], s[1], s[2]], s[3..];
      var pad := Padding(if |s| % 3 == 0 then 4 else Tail(|s|));
      assert |rest| % 3 == |s| % 3;
      DecodeUnpadded(rest, out + g);
      DecodeThree(s[0], s[1], s[2], Unpadded(rest) + pad, out);
      assert Unpadded(s) + pad == Group(s[0], s[1], s[2]) + (Unpadded(rest) + pad);
      assert out + g + rest == out + s by { assert g + rest == s; }
    }
  }

  /** Decoding undoes encoding for every byte string, four superfluous padding characters included. */
  lemma TokenRoundTrip(s: Bytes)
    ensures DecodeBase64Url(EncodeBase64Url(s)) == Some(s)
  {
    hide LenientDecode, Unpadded;
    EncodedIs(s);
    UnpaddedShape(s);
    DecodeUnpadded(s, []);
    assert [] + s == s;
  }

  // ----- The console lookup -----

  const COLON: Byte := ':' as int

  function AsciiText(s: Bytes): Option<string> {
    if s == [] then Some("")
    else if s[0] >= 0x80 then None
    else match AsciiText(s[1..])
         case None => None
         case Some(t) => Some([s[0] as char] + t)
  }

  function AsciiBytes(t: string): (s: Bytes)
    requires forall i :: 0 <= i < |t| ==> t[i] < 128 as char
    ensures |s| == |t| && forall i :: 0 <= i < |s| ==> s[i] == t[i] as int < 0x80
  {
    seq(|t|, i requires 0 <= i < |t| => t[i] as int)
  }

  datatype LookupError = BadToken | BadText | BadParts | BadPort

  function Lookup(token: string): Result<(Bytes, int), LookupError> {
    match DecodeBase64Url(token)
    case None => Err(BadToken)
    case Some(info) =>
      if !ValidUtf8(info) then Err(BadText)
      else
        var parts := Split(info, COLON);
        if |parts| != 2 then Err(BadParts)
        else
          match AsciiText(parts[1])
          case None => Err(BadPort)
          case Some(text) =>
            match PyInt(text)
            case None => Err(BadPort)
            case Some(port) => Ok((parts[0], port))
  }

  /** `"{}:{}".format(host, port)`. */
  function HostPort(host: Bytes, port: int): Bytes {
    host + [COLON] + AsciiBytes(PrintInt(port))
  }

  lemma {:induction false} AsciiRoundTrip(t: string)
    requires forall i :: 0 <= i < |t| ==> t[i] < 128 as char
    ensures AsciiText(AsciiBytes(t)) == Some(t)
  {
    if t != "" {
      assert AsciiBytes(t)[1..] == AsciiBytes(t[1..]);
      AsciiRoundTrip(t[1..]);
      assert t == [t[0]] + t[1..];
    }
  }

  lemma {:induction false} SplitCount(s: Bytes, c: Byte)
    ensures |Split(s, c)| == 1 <==> c !in s
    ensures c !in s ==> Split(s, c) == [s]
  {
    var i := IndexOf(s, c);
    if i < |s| {
      assert s[i] in s;
    }
  }

  lemma {:induction false} SplitHostPort(host: Bytes, port: Bytes)
    requires COLON !in port
    ensures |Split(host + [COLON] + port, COLON)| == 2 <==> COLON !in host
    ensures COLON !in host ==> Split(host + [COLON] + port, COLON) == [host, port]
  {
    var s := host + [COLON] + port;
    var i := IndexOf(s, COLON);
    assert s[|host|] == COLON;
    assert i <= |host|;
    if COLON in host {
      var j :| 0 <= j < |host| && host[j] == COLON;
      assert s[j] == COLON;
      assert s[i + 1..][|host| - i - 1] == COLON && COLON in s[i + 1..];
      SplitCount(s[i + 1..], COLON);
    } else {
      assert forall j :: 0 <= j < |host| ==> s[j] == host[j] && host[j] != COLON;
      assert i == |host|;
      assert s[..i] == host && s[i + 1..] == port;
      SplitCount(port, COLON);
    }
  }

  /** A console token is understood exactly when its host has no colon, and gives back host and port. */
  lemma {:induction false} LookupUndoesEncode(host: Bytes, port: int)
    requires ValidUtf8(host)
    ensures COLON !in host ==> Lookup(EncodeBase64Url(HostPort(host, port))) == Ok((host, port))
    ensures COLON in host ==> Lookup(EncodeBase64Url(HostPort(host, port))) == Err(BadParts)
  {
    hide DecodeBase64Url, EncodeBase64Url, PyInt, ValidUtf8;
    var info, digits := HostPort(host, port), AsciiBytes(PrintInt(port));
    TokenRoundTrip(info);
    AsciiValid(digits);
    AsciiValid([COLON]);
    ValidConcat(host, [COLON]);
    ValidConcat(host + [COLON], digits);
    assert COLON !in digits by {
      assert forall i :: 0 <= i < |digits| ==> digits[i] == PrintInt(port)[i] as int;
    }
    SplitHostPort(host, digits);
    AsciiRoundTrip(PrintInt(port));
    PyIntPrintInt(port);
  }

  /** Concretely: the loopback address of IPv6. */
  lemma Ipv6HostRefused(port: int)
    ensures Lookup(EncodeBase64Url(HostPort(AsciiBytes("::1"), port))) == Err(BadParts)
  {
    hide Lookup, EncodeBase64Url, HostPort;
    var host := AsciiBytes("::1");
    assert host[0] == COLON;
    AsciiValid(host);
    LookupUndoesEncode(host, port);
  }

  // ----- The alphabet -----

  const UPPER: string := "ABCDEFGHIJKLMNOPQRSTUVWXYZ"
  const LOWER: string := "abcdefghijklmnopqrstuvwxyz"
  const DIGITS: string := "0123456789"

  /** The URL- and filename-safe alphabet (table 2 in section 5 of RFC 4648). */
  lemma SymbolsAreAlphabet(n: nat)
    requires n < 64
    ensures n < 26 ==> Symbol(n) == UPPER[n]
    ensures 26 <= n < 52 ==> Symbol(n) == LOWER[n - 26]
    ensures 52 <= n < 62 ==> Symbol(n) == DIGITS[n - 52]
    ensures n == 62 ==> Symbol(n) == '-'
    ensures n == 63 ==> Symbol(n) == '_'
  {
  }

  predicate UrlSafe(c: char) {
    'A' <= c <= 'Z' || 'a' <= c <= 'z' || '0' <= c <= '9' || c == '-' || c == '_'
  }

  /** A token holds letters, digits, hyphens and underscores only, and no padding. */
  lemma {:induction false} TokensAreUrlSafe(s: Bytes)
    ensures forall i :: 0 <= i < |EncodeBase64Url(s)| ==> UrlSafe(EncodeBase64Url(s)[i])
    decreases |s|
  {
    EncodedIs(s);
    UnpaddedSafe(s);
    hide EncodeBase64Url;
  }

  lemma {:induction false} UnpaddedSafe(s: Bytes)
    ensures forall i :: 0 <= i < |Unpadded(s)| ==> UrlSafe(Unpadded(s)[i])
  {
    if |s| >= 3 {
      UnpaddedSafe(s[3..]);
      hide Unpadded;
      var g := Group(s[0], s[1], s[2]);
      assert forall i :: 0 <= i < 4 ==> UrlSafe(g[i]);
      UnpaddedMore(s);
    }
  }

  lemma {:induction false} UnpaddedMore(s: Bytes)
    requires |s| >= 3
    ensures Unpadded(s) == Group(s[0], s[1], s[2]) + Unpadded(s[3..])
  {
    hide Group;
  }

  lemma SampleGroups()
    ensures Group(0x66, 0x6F, 0x6F) == "Zm9v" && Group(0x62, 0x61, 0x72) == "YmFy"
  {
  }

  /** The samples of section 10 of RFC 4648. */
  lemma {:induction false} SampleTokens()
    ensures EncodeBase64Url([0x66, 0x6F, 0x6F, 0x62, 0x61, 0x72]) == "Zm9vYmFy" && EncodeBase64Url([0x66, 0x6F]) == "Zm8"
  {
    hide EncodeBase64Url, Unpadded, Group;
    var six, three: Bytes := [0x66, 0x6F, 0x6F, 0x62, 0x61, 0x72], [0x62, 0x61, 0x72];
    EncodedIs(six);
    EncodedIs([0x66, 0x6F]);
    assert six[3..] == three && three[3..] == [];
    UnpaddedMore(six);
    UnpaddedMore(three);
    SampleGroups();
    ShortUnpadded();
  }

  /** A token that needs both URL-safe symbols. */
  lemma SafeSymbolsUsed()
    ensures EncodeBase64Url([0xFB, 0xFF]) == "-_8"
  {
    hide EncodeBase64Url;
    EncodedIs([0xFB, 0xFF]);
  }

  lemma ShortUnpadded()
    ensures Unpadded([]) == "" && Unpadded([0x66, 0x6F]) == "Zm8"
  {
  }

  // ----- What the decoder passes over -----

  /** A character that is neither a symbol nor padding makes no difference, wherever it stands. */
  lemma {:induction false} ForeignIgnored(a: string, c: char, b: string, quad: nat, left: nat, pads: nat, out: Bytes)
    requires c != '=' && SymbolValue(c) == None
    requires quad < 4 && left < (if quad == 1 then 64 else if quad == 2 then 16 else if quad == 3 then 4 else 1)
    ensures LenientDecode(a + [c] + b, quad, left, pads, out) == LenientDecode(a + b, quad, left, pads, out)
    decreases |a|
  {
    var t := a + [c] + b;
    if a == [] {
      assert t[1..] == b && a + b == b;
    } else {
      assert t[0] == a[0] && t[1..] == a[1..] + [c] + b && (a + b)[1..] == a[1..] + b;
      hide SymbolValue;
      if a[0] == '=' {
        if !(quad >= 2 && quad + pads + 1 >= 4) {
          ForeignIgnored(a[1..], c, b, quad, left, if quad >= 2 then pads + 1 else pads, out);
        }
      } else {
        match SymbolValue(a[0])
        case None => ForeignIgnored(a[1..], c, b, quad, left, pads, out);
        case Some(v) =>
          if quad == 0 { ForeignIgnored(a[1..], c, b, 1, v, 0, out); }
          else if quad == 1 { ForeignIgnored(a[1..], c, b, 2, v % 16, 0, out + [left * 4 + v / 16]); }
          else if quad == 2 { ForeignIgnored(a[1..], c, b, 3, v % 4, 0, out + [left * 16 + v / 4]); }
          else { ForeignIgnored(a[1..], c, b, 0, 0, 0, out + [left * 64 + v]); }
      }
    }
  }

  // ----- The lookup on any token -----

  lemma {:induction false} SplitInTwo(s: Bytes, host: Bytes, port: Bytes)
    ensures Split(s, COLON) == [host, port] <==> s == host + [COLON] + port && COLON !in host && COLON !in port
  {
    if s == host + [COLON] + port && COLON !in port {
      SplitHostPort(host, port);
    }
    var i := IndexOf(s, COLON);
    if Split(s, COLON) == [host, port] {
      assert i < |s|;
      var rest := s[i + 1..];
      assert Split(s, COLON) == [s[..i]] + Split(rest, COLON) && Split(s, COLON)[0] == s[..i];
      assert Split(rest, COLON) == ([s[..i]] + Split(rest, COLON))[1..] == [port];
      SplitCount(rest, COLON);
      assert host == s[..i] && s == s[..i] + [COLON] + s[i + 1..];
    }
  }

  /**
   * Any token at all is understood exactly if it decodes to the text of a host, one colon and a port that
   * reads as an integer.
   */
  lemma {:induction false} LookupExactly(token: string, host: Bytes, port: int)
    ensures Lookup(token) == Ok((host, port))
            <==> exists digits: Bytes ::
                   && DecodeBase64Url(token) == Some(host + [COLON] + digits) && COLON !in host && COLON !in digits
                   && ValidUtf8(host + [COLON] + digits)
                   && AsciiText(digits).Some? && PyInt(AsciiText(digits).value) == Some(port)
  {
    hide DecodeBase64Url, PyInt, ValidUtf8, AsciiText, Split;
    match DecodeBase64Url(token)
    case None =>
    case Some(info) =>
      if Lookup(token) == Ok((host, port)) {
        var digits := Split(info, COLON)[1];
        assert Split(info, COLON) == [host, digits];
        SplitInTwo(info, host, digits);
      }
      forall digits: Bytes | info == host + [COLON] + digits && COLON !in host && COLON !in digits
        ensures Split(info, COLON) == [host, digits]
      {
        SplitInTwo(info, host, digits);
      }
  }
}
