/** Canonical IPv4 addresses: stripping the leading zeros of a dotted quad. */
module Ipv4 {
  import opened Basics

  // ----- octets -----

  predicate Digit(c: char) {
    '0' <= c <= '9'
  }

  predicate AllDigits(s: string) {
    forall k :: 0 <= k < |s| ==> Digit(s[k])
  }

  function DigitValue(c: char): int {
    c as int - '0' as int
  }

  function Value(s: string): nat
    requires AllDigits(s)
  {
    if s == "" then 0 else 10 * Value(s[..|s| - 1]) + DigitValue(s[|s| - 1])
  }

  /** A non-empty decimal number of at most 255, with any number of leading zeros. */
  predicate ValidOctet(s: string) {
    s != "" && AllDigits(s) && Value(s) <= 255
  }

  function DigitOf(n: nat): (c: char)
    requires n < 10
    ensures Digit(c) && DigitValue(c) == n
  {
    (n + '0' as int) as char
  }

  function Format(n: nat): (s: string)
    ensures s != "" && AllDigits(s)
  {
    if n < 10 then [DigitOf(n)] else Format(n / 10) + [DigitOf(n % 10)]
  }

  /** dec-octet of section 3.2.2 of RFC 3986. */
  predicate DecOctet(s: string) {
    || (|s| == 1 && Digit(s[0]))
    || (|s| == 2 && '1' <= s[0] <= '9' && Digit(s[1]))
    || (|s| == 3 && s[0] == '1' && Digit(s[1]) && Digit(s[2]))
    || (|s| == 3 && s[0] == '2' && '0' <= s[1] <= '4' && Digit(s[2]))
    || (|s| == 3 && s[0] == '2' && s[1] == '5' && '0' <= s[2] <= '5')
  }

  lemma {:induction false} ValueOfFormat(n: nat)
    ensures Value(Format(n)) == n
  {
    if n >= 10 {
      ValueOfFormat(n / 10);
      assert Format(n)[..|Format(n)| - 1] == Format(n / 10);
    }
  }

  lemma Digits(s: string)
    requires AllDigits(s)
    ensures |s| == 1 ==> Value(s) == DigitValue(s[0])
    ensures |s| == 2 ==> Value(s) == 10 * DigitValue(s[0]) + DigitValue(s[1])
    ensures |s| == 3 ==>
              Value(s) == 100 * DigitValue(s[0]) + 10 * DigitValue(s[1]) + DigitValue(s[2])
  {
  }

  /** The formatted octets are exactly the dec-octets. */
  lemma FormatIsDecOctet(n: nat)
    requires n <= 255
    ensures DecOctet(Format(n))
  {
    ValueOfFormat(n);
    Digits(Format(n));
    if n >= 100 {
      assert Format(n / 10) == Format(n / 10 / 10) + [DigitOf(n / 10 % 10)] &&
             Format(n / 10 / 10) == [DigitOf(n / 10 / 10)];
      assert Format(n) == [DigitOf(n / 10 / 10)] + [DigitOf(n / 10 % 10)] + [DigitOf(n % 10)];
    } else if n >= 10 {
      assert Format(n) == [DigitOf(n / 10)] + [DigitOf(n % 10)];
    }
  }

  lemma DecOctetIsFormat(s: string)
    requires DecOctet(s)
    ensures ValidOctet(s) && Format(Value(s)) == s
  {
    Digits(s);
    var n := Value(s);
    if |s| == 2 {
      assert n / 10 == DigitValue(s[0]) && n % 10 == DigitValue(s[1]);
    } else if |s| == 3 {
      assert n / 10 / 10 == DigitValue(s[0]) && n / 10 % 10 == DigitValue(s[1]) &&
             n % 10 == DigitValue(s[2]);
    }
  }

  // ----- addresses -----

  function Split(s: string): (pieces: seq<string>)
    ensures pieces != []
  {
    if s == "" then [""]
    else
      var before, c := Split(s[..|s| - 1]), s[|s| - 1];
      if c == '.' then before + [""] else before[..|before| - 1] + [before[|before| - 1] + [c]]
  }

  function Join(pieces: seq<string>): string {
    if pieces == [] then ""
    else if |pieces| == 1 then pieces[0]
    else Join(pieces[..|pieces| - 1]) + "." + pieces[|pieces| - 1]
  }

  function FormatAll(pieces: seq<string>): seq<string>
    requires forall p :: p in pieces ==> ValidOctet(p)
  {
    if pieces == [] then []
    else
      assert forall p :: p in pieces[..|pieces| - 1] ==> p in pieces;
      var last := pieces[|pieces| - 1];
      assert last in pieces && ValidOctet(last);
      FormatAll(pieces[..|pieces| - 1]) + [Format(Value(last))]
  }

  function Normalize(ip: string): Result<string> {
    var octets := Split(ip);
    if (forall o :: o in octets ==> ValidOctet(o)) && |octets| == 4 then Ok(Join(FormatAll(octets))) else Err
  }

  function Quad(a: string, b: string, c: string, d: string): string {
    a + "." + b + "." + c + "." + d
  }

  predicate FourOctets(a: string, b: string, c: string, d: string) {
    ValidOctet(a) && ValidOctet(b) && ValidOctet(c) && ValidOctet(d)
  }

  /** IPv4address of section 3.2.2 of RFC 3986. */
  ghost predicate IPv4Address(s: string) {
    exists a, b, c, d :: DecOctet(a) && DecOctet(b) && DecOctet(c) && DecOctet(d) && s == Quad(a, b, c, d)
  }

  lemma {:induction false} SplitPiece(s: string, piece: string)
    requires '.' !in piece
    ensures Split(s + "." + piece) == Split(s) + [piece]
  {
    var t := s + "." + piece;
    if piece == "" {
      assert t[..|t| - 1] == s;
    } else {
      var shorter := piece[..|piece| - 1];
      assert t[..|t| - 1] == s + "." + shorter;
      SplitPiece(s, shorter);
      assert t[|t| - 1] == piece[|piece| - 1] && piece[|piece| - 1] in piece;
      assert piece == shorter + [piece[|piece| - 1]];
      assert Split(s + "." + shorter)[..|Split(s)|] == Split(s);
    }
  }

  lemma {:induction false} SplitWhole(piece: string)
    requires '.' !in piece
    ensures Split(piece) == [piece]
  {
    if piece != "" {
      SplitWhole(piece[..|piece| - 1]);
      assert piece[|piece| - 1] in piece && piece == piece[..|piece| - 1] + [piece[|piece| - 1]];
      assert [piece[..|piece| - 1]][..0] == [];
    }
  }

  lemma JoinLast(front: seq<string>, p: string)
    ensures Join(front + [p]) == if front == [] then p else Join(front) + "." + p
  {
  }

  lemma {:induction false} JoinSplit(s: string)
    ensures Join(Split(s)) == s
  {
    if s != "" {
      var before, c := Split(s[..|s| - 1]), s[|s| - 1];
      JoinSplit(s[..|s| - 1]);
      assert s == s[..|s| - 1] + [c];
      if c == '.' {
        JoinLast(before, "");
      } else {
        var front, p := before[..|before| - 1], before[|before| - 1];
        assert before == front + [p];
        JoinLast(front, p);
        JoinLast(front, p + [c]);
      }
    }
  }

  lemma SplitQuad(a: string, b: string, c: string, d: string)
    requires '.' !in a && '.' !in b && '.' !in c && '.' !in d
    ensures Split(Quad(a, b, c, d)) == [a, b, c, d]
  {
    SplitWhole(a);
    SplitPiece(a, b);
    SplitPiece(a + "." + b, c);
    SplitPiece(a + "." + b + "." + c, d);
  }

  lemma JoinFour(a: string, b: string, c: string, d: string)
    ensures Join([a, b, c, d]) == Quad(a, b, c, d)
  {
    assert [a, b, c, d][..3] == [a, b, c] && [a, b, c][..2] == [a, b] && [a, b][..1] == [a];
    assert Join([a, b]) == a + "." + b;
    assert Join([a, b, c]) == a + "." + b + "." + c;
  }

  lemma NormalizeQuad(a: string, b: string, c: string, d: string)
    requires FourOctets(a, b, c, d)
    ensures Normalize(Quad(a, b, c, d)) ==
            Ok(Quad(Format(Value(a)), Format(Value(b)), Format(Value(c)), Format(Value(d))))
  {
    SplitQuad(a, b, c, d);
    FormatEach([a, b, c, d]);
    assert FormatAll([a, b, c, d]) == [Format(Value(a)), Format(Value(b)), Format(Value(c)), Format(Value(d))];
    hide FormatAll, Join, Split;
    JoinFour(Format(Value(a)), Format(Value(b)), Format(Value(c)), Format(Value(d)));
  }

  lemma {:induction false} FormatEach(pieces: seq<string>)
    requires forall p :: p in pieces ==> ValidOctet(p)
    ensures |FormatAll(pieces)| == |pieces|
    ensures forall k :: 0 <= k < |pieces| ==> ValidOctet(pieces[k]) && FormatAll(pieces)[k] == Format(Value(pieces[k]))
  {
    hide Format, Value;
    if pieces != [] {
      var before, last := pieces[..|pieces| - 1], pieces[|pieces| - 1];
      assert last in pieces && forall p :: p in before ==> p in pieces;
      FormatEach(before);
      assert FormatAll(pieces) == FormatAll(before) + [Format(Value(last))];
      hide FormatAll, ValidOctet;
    }
  }

  /** Accepted are exactly four valid octets with dots between them. */
  lemma AcceptsExactly(ip: string)
    ensures Normalize(ip).Ok? <==> exists a, b, c, d :: FourOctets(a, b, c, d) && ip == Quad(a, b, c, d)
  {
    if Normalize(ip).Ok? {
      var o := Split(ip);
      JoinSplit(ip);
      JoinFour(o[0], o[1], o[2], o[3]);
      assert o == [o[0], o[1], o[2], o[3]];
      assert FourOctets(o[0], o[1], o[2], o[3]);
    }
    forall a, b, c, d | FourOctets(a, b, c, d) && ip == Quad(a, b, c, d) ensures Normalize(ip).Ok? {
      NormalizeQuad(a, b, c, d);
    }
  }

  /** The result is an IPv4address, and those are exactly the fixed points. */
  lemma ResultIsCanonical(ip: string)
    ensures Normalize(ip).Ok? ==> IPv4Address(Normalize(ip).value) && Normalize(Normalize(ip).value) == Normalize(ip)
    ensures IPv4Address(ip) <==> Normalize(ip) == Ok(ip)
  {
    AcceptsExactly(ip);
    if Normalize(ip).Ok? {
      var a, b, c, d :| FourOctets(a, b, c, d) && ip == Quad(a, b, c, d);
      NormalizeQuad(a, b, c, d);
      FormatIsDecOctet(Value(a));
      FormatIsDecOctet(Value(b));
      FormatIsDecOctet(Value(c));
      FormatIsDecOctet(Value(d));
      FixedPoint(Normalize(ip).value);
    }
    if IPv4Address(ip) {
      FixedPoint(ip);
    }
  }

  lemma FixedPoint(ip: string)
    requires IPv4Address(ip)
    ensures Normalize(ip) == Ok(ip)
  {
    var a, b, c, d :| DecOctet(a) && DecOctet(b) && DecOctet(c) && DecOctet(d) && ip == Quad(a, b, c, d);
    DecOctetIsFormat(a);
    DecOctetIsFormat(b);
    DecOctetIsFormat(c);
    DecOctetIsFormat(d);
    NormalizeQuad(a, b, c, d);
  }

  /** Two accepted addresses have equal results exactly when their octets have equal values. */
  lemma EqualExactly(a: seq<string>, b: seq<string>)
    requires |a| == 4 && FourOctets(a[0], a[1], a[2], a[3])
    requires |b| == 4 && FourOctets(b[0], b[1], b[2], b[3])
    ensures Normalize(Quad(a[0], a[1], a[2], a[3])) == Normalize(Quad(b[0], b[1], b[2], b[3])) <==>
            Value(a[0]) == Value(b[0]) && Value(a[1]) == Value(b[1]) && Value(a[2]) == Value(b[2]) &&
            Value(a[3]) == Value(b[3])
  {
    NormalizeQuad(a[0], a[1], a[2], a[3]);
    NormalizeQuad(b[0], b[1], b[2], b[3]);
    SplitQuad(Format(Value(a[0])), Format(Value(a[1])), Format(Value(a[2])), Format(Value(a[3])));
    SplitQuad(Format(Value(b[0])), Format(Value(b[1])), Format(Value(b[2])), Format(Value(b[3])));
    forall k | 0 <= k < 4
      ensures Value(Format(Value(a[k]))) == Value(a[k]) && Value(Format(Value(b[k]))) == Value(b[k])
    {
      ValueOfFormat(Value(a[k]));
      ValueOfFormat(Value(b[k]));
    }
  }

  // ----- the code -----

  lemma {:induction false} ValueGrows(s: string, k: nat)
    requires AllDigits(s) && k <= |s|
    ensures AllDigits(s[..k]) && Value(s[..k]) <= Value(s)
  {
    if k == |s| {
      assert s[..k] == s;
    } else {
      assert s[..|s| - 1][..k] == s[..k];
      ValueGrows(s[..|s| - 1], k);
    }
  }

  /** Parsing with a width of 8 bits stops at the first character that is no digit or
      takes the value out of range. */
  method ParseUint8(s: string) returns (r: Result<nat>)
    ensures r == if ValidOctet(s) then Ok(Value(s)) else Err
  {
    if |s| == 0 {
      return Err;
    }
    var n := 0;
    for k := 0 to |s|
      invariant AllDigits(s[..k]) && n == Value(s[..k]) && n <= 255
    {
      if !('0' <= s[k] <= '9') {
        return Err;
      }
      assert s[..k + 1][..k] == s[..k];
      n := n * 10 + DigitValue(s[k]);
      if n > 255 {
        if AllDigits(s) {
          ValueGrows(s, k + 1);
        }
        return Err;
      }
    }
    assert s[..|s|] == s;
    return Ok(n);
  }

  method SplitDots(s: string) returns (pieces: seq<string>)
    ensures pieces == Split(s)
  {
    pieces := [""];
    for k := 0 to |s|
      invariant pieces == Split(s[..k])
    {
      assert s[..k + 1][..k] == s[..k];
      if s[k] == '.' {
        pieces := pieces + [""];
      } else {
        pieces := pieces[..|pieces| - 1] + [pieces[|pieces| - 1] + [s[k]]];
      }
    }
    assert s[..|s|] == s;
  }

  method NormalizeIPv4(ip: string) returns (r: Result<string>)
    ensures r == Normalize(ip)
  {
    var pieces := SplitDots(ip);
    var octets: seq<string> := [];
    for k := 0 to |pieces|
      invariant forall p :: p in pieces[..k] ==> ValidOctet(p)
      invariant octets == FormatAll(pieces[..k])
    {
      var parsed := ParseUint8(pieces[k]);
      if parsed.Err? {
        assert pieces[k] in pieces;
        return Err;
      }
      assert pieces[..k + 1] == pieces[..k] + [pieces[k]];
      octets := octets + [Format(parsed.value)];
    }
    assert pieces[..|pieces|] == pieces;
    if |pieces| != 4 {
      return Err;
    }
    r := Ok(Join(octets));
  }

  // ----- canonical addresses -----

  /** Strings of digits and dots. */
  predicate DotsAndDigits(s: string) {
    forall k :: 0 <= k < |s| ==> Digit(s[k]) || s[k] == '.'
  }

  /** What the address parser of the standard library answers for such strings: it prints
      the IPv4addresses as they are and rejects everything else. */
  ghost predicate ParsesQuads(parse: string -> Option<string>) {
    forall s :: DotsAndDigits(s) ==> parse(s) == if IPv4Address(s) then Some(s) else None
  }

  function TryCanonicalizeIP(parse: string -> Option<string>, ip: string): string {
    if parse(ip).Some? then parse(ip).value
    else if Normalize(ip).Ok? && parse(Normalize(ip).value).Some? then parse(Normalize(ip).value).value
    else ip
  }

  /** On such strings canonicalizing is normalizing where that succeeds, and nothing
      otherwise; doing it twice is doing it once. */
  lemma CanonicalExactly(parse: string -> Option<string>, ip: string)
    requires ParsesQuads(parse) && DotsAndDigits(ip)
    ensures var r := TryCanonicalizeIP(parse, ip);
            && r == (if Normalize(ip).Ok? then Normalize(ip).value else ip)
            && TryCanonicalizeIP(parse, r) == r
  {
    ResultIsCanonical(ip);
    if Normalize(ip).Ok? {
      var r := Normalize(ip).value;
      CanonicalCharacters(r);
      ResultIsCanonical(r);
    }
  }

  lemma CanonicalCharacters(s: string)
    requires IPv4Address(s)
    ensures DotsAndDigits(s)
  {
    var a, b, c, d :| DecOctet(a) && DecOctet(b) && DecOctet(c) && DecOctet(d) && s == Quad(a, b, c, d);
    Octets("", a);
    assert "" + a == a;
    Octets(a + ".", b);
    Octets(a + "." + b + ".", c);
    Octets(a + "." + b + "." + c + ".", d);
  }

  lemma Octets(front: string, octet: string)
    requires DotsAndDigits(front) && DecOctet(octet)
    ensures DotsAndDigits(front + octet) && DotsAndDigits(front + octet + ".")
  {
  }
}
