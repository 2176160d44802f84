/**
 The generated nginx file of `scripts/refresh_cloudfront_origin_ranges.py` as text: how it is
 rendered, how it is read back, and the IPv4 notation in full. IPv6 notation, and every form of
 a network other than a dotted quad with a decimal prefix length, belongs to a notation oracle.
 */
module ConfText {
  import opened Cidr
  import opened Powers
  import opened Text
  import opened Wrappers

  // ----- characters and lines -----

  /** Where `splitlines` cuts. */
  predicate IsBreak(c: char) {
    '\n' <= c <= '\r' || '\U{1C}' <= c <= '\U{1E}' || c == '\U{85}' || c == '\U{2028}' || c == '\U{2029}'
  }

  predicate Solid(s: string) {
    forall i :: 0 <= i < |s| ==> !IsSpace(s[i])
  }

  /** What `\S+` matches. */
  predicate Token(s: string) {
    s != [] && Solid(s)
  }

  predicate OneLine(s: string) {
    forall i :: 0 <= i < |s| ==> !IsBreak(s[i])
  }

  predicate AllSpace(s: string) {
    forall i :: 0 <= i < |s| ==> IsSpace(s[i])
  }

  function FirstBreak(t: string): (k: nat)
    ensures k <= |t| && OneLine(t[..k]) && (k < |t| ==> IsBreak(t[k]))
  {
    if t == [] || IsBreak(t[0]) then 0 else
      var k := FirstBreak(t[1..]) + 1;
      assert t[..k] == [t[0]] + t[1..][..k - 1];
      k
  }

  function BreakWidth(t: string, k: nat): (w: nat)
    requires k < |t|
    ensures 1 <= w && k + w <= |t|
  {
    if t[k] == '\r' && k + 1 < |t| && t[k + 1] == '\n' then 2 else 1
  }

  function SplitLines(t: string): seq<string>
    decreases |t|
  {
    if t == [] then [] else
      var k := FirstBreak(t);
      if k == |t| then [t] else [t[..k]] + SplitLines(t[k + BreakWidth(t, k)..])
  }

  function Joined(lines: seq<string>): string {
    if lines == [] then "" else lines[0] + "\n" + Joined(lines[1..])
  }

  lemma {:induction false} FirstBreakAt(t: string, k: nat)
    requires k < |t| && IsBreak(t[k]) && OneLine(t[..k])
    ensures FirstBreak(t) == k
  {
    if k > 0 {
      assert !IsBreak(t[..k][0]);
      assert t[1..][..k - 1] == t[..k][1..];
      FirstBreakAt(t[1..], k - 1);
    }
  }

  lemma {:induction false} SplitLinesCons(line: string, rest: string)
    requires OneLine(line)
    ensures SplitLines(line + "\n" + rest) == [line] + SplitLines(rest)
  {
    hide OneLine, FirstBreak;
    var t := line + "\n" + rest;
    assert t[..|line|] == line && t[|line|] == '\n' && t[|line| + 1..] == rest;
    FirstBreakAt(t, |line|);
  }

  /** Every line break ends a line; a carriage return takes the line feed after it along. */
  lemma {:induction false} SplitLinesAt(line: string, c: char, rest: string)
    requires OneLine(line) && c in "\n\U{0B}\U{0C}\r\U{1C}\U{1D}\U{1E}\U{85}\U{2028}\U{2029}"
    ensures c != '\r' || rest == [] || rest[0] != '\n' ==> SplitLines(line + [c] + rest) == [line] + SplitLines(rest)
    ensures SplitLines(line + "\r\n" + rest) == [line] + SplitLines(rest)
  {
    hide OneLine, FirstBreak;
    BreaksAre(c);
    var t := line + [c] + rest;
    assert t[..|line|] == line && t[|line|] == c && t[|line| + 1..] == rest;
    FirstBreakAt(t, |line|);
    var u := line + "\r\n" + rest;
    assert u[..|line|] == line && u[|line|] == '\r' && u[|line| + 1] == '\n' && u[|line| + 2..] == rest;
    FirstBreakAt(u, |line|);
  }

  lemma BreaksAre(c: char)
    requires c in "\n\U{0B}\U{0C}\r\U{1C}\U{1D}\U{1E}\U{85}\U{2028}\U{2029}"
    ensures IsBreak(c) && IsBreak('\r')
  {
  }

  /** Lines without a break in them come back from their text. */
  lemma {:induction false} SplitJoined(lines: seq<string>)
    requires forall i :: 0 <= i < |lines| ==> OneLine(lines[i])
    ensures SplitLines(Joined(lines)) == lines
  {
    hide OneLine, SplitLines;
    if lines == [] {
      SplitNothing();
    } else {
      SplitLinesCons(lines[0], Joined(lines[1..]));
      SplitJoined(lines[1..]);
    }
  }

  lemma SplitNothing()
    ensures SplitLines("") == []
  {
  }

  lemma {:induction false} JoinedConcat(a: seq<string>, b: seq<string>)
    ensures Joined(a + b) == Joined(a) + Joined(b)
  {
    if a == [] {
      assert a + b == b;
    } else {
      assert (a + b)[1..] == a[1..] + b;
      JoinedConcat(a[1..], b);
    }
  }

  lemma SolidIsOneLine(s: string)
    requires Solid(s)
    ensures OneLine(s)
  {
    forall i | 0 <= i < |s| ensures !IsBreak(s[i]) { assert !IsSpace(s[i]); }
  }

  lemma OneLineConcat(a: string, b: string)
    requires OneLine(a) && OneLine(b)
    ensures OneLine(a + b)
  {
  }

  // ----- decimal numbers -----

  function Digit(d: nat): (c: char)
    requires d < 10
    ensures IsDigit(c)
  {
    '0' + d as char
  }

  function Dec(n: nat): string {
    if n < 10 then [Digit(n)] else Dec(n / 10) + [Digit(n % 10)]
  }

  lemma {:induction false} DecDigits(n: nat)
    ensures Dec(n) != [] && AllDigits(Dec(n))
    ensures n > 0 ==> Dec(n)[0] != '0'
    ensures |Dec(n)| > 1 ==> n >= 10
  {
    if n >= 10 { DecDigits(n / 10); }
  }

  lemma {:induction false} DecValue(n: nat)
    ensures AllDigits(Dec(n)) && Number(Dec(n)) == n
  {
    DecDigits(n);
    if n < 10 {
      assert Dec(n)[..0] == [];
    } else {
      DecValue(n / 10);
      assert Dec(n)[..|Dec(n)| - 1] == Dec(n / 10);
    }
  }

  lemma DecShort(n: nat)
    requires n < 1000
    ensures |Dec(n)| <= 3
  {
    DecPair(n);
    DecPair(n / 10);
  }

  lemma DecPair(n: nat)
    requires n < 1000
    ensures n < 100 ==> |Dec(n)| <= 2
    ensures n >= 10 ==> |Dec(n)| == |Dec(n / 10)| + 1
  {
  }

  lemma DigitsSolid(s: string)
    requires AllDigits(s)
    ensures Solid(s) && forall c :: c in s ==> IsDigit(c)
  {
    forall i | 0 <= i < |s| ensures !IsSpace(s[i]) { assert IsDigit(s[i]); }
  }

  /** A numeral without a needless zero in front is the one its number is printed as. */
  lemma {:induction false} DecIsUnique(s: string)
    requires s != [] && AllDigits(s) && (|s| > 1 ==> s[0] != '0')
    ensures Dec(Number(s)) == s
  {
    var n := |s| - 1;
    var front, d := s[..n], (s[n] - '0') as nat;
    assert IsDigit(s[n]);
    assert s == front + [s[n]] && Digit(d) == s[n];
    if n == 0 {
      assert Number(front) == 0 && Number(s) == d;
    } else {
      DecIsUnique(front);
      assert Dec(0) == "0";
      assert front[0] == s[0];
      assert Number(front) > 0;
      LastDigit(Number(front), d);
    }
  }

  lemma LastDigit(m: nat, d: nat)
    requires m > 0 && d < 10
    ensures Dec(m * 10 + d) == Dec(m) + [Digit(d)]
  {
    assert (m * 10 + d) / 10 == m && (m * 10 + d) % 10 == d;
  }

  // ----- splitting at a separator -----

  function IndexOf(s: string, c: char): (k: nat)
    requires c in s
    ensures k < |s| && s[k] == c && c !in s[..k]
  {
    if s[0] == c then 0 else
      var k := IndexOf(s[1..], c) + 1;
      assert s[..k] == [s[0]] + s[1..][..k - 1];
      k
  }

  function Split(s: string, c: char): (r: seq<string>)
    ensures r != []
    decreases |s|
  {
    if c !in s then [s] else var k := IndexOf(s, c); [s[..k]] + Split(s[k + 1..], c)
  }

  function Join(parts: seq<string>, c: char): string
    requires parts != []
  {
    if |parts| == 1 then parts[0] else parts[0] + [c] + Join(parts[1..], c)
  }

  lemma {:induction false} SplitCons(a: string, b: string, c: char)
    requires c !in a
    ensures Split(a + [c] + b, c) == [a] + Split(b, c)
  {
    var s := a + [c] + b;
    IndexOfFirst(a, b, c);
    assert s[..|a|] == a && s[|a| + 1..] == b;
  }

  lemma {:induction false} IndexOfFirst(a: string, b: string, c: char)
    requires c !in a
    ensures c in a + [c] + b && IndexOf(a + [c] + b, c) == |a|
  {
    var s := a + [c] + b;
    assert s[|a|] == c;
    if a != [] {
      assert a[0] != c;
      IndexOfFirst(a[1..], b, c);
      assert s[1..] == a[1..] + [c] + b;
    }
  }

  lemma {:induction false} SplitJoin(parts: seq<string>, c: char)
    requires parts != [] && forall i :: 0 <= i < |parts| ==> c !in parts[i]
    ensures Split(Join(parts, c), c) == parts
  {
    hide Split;
    if |parts| == 1 {
      SplitWhole(parts[0], c);
    } else {
      SplitCons(parts[0], Join(parts[1..], c), c);
      SplitJoin(parts[1..], c);
    }
  }

  lemma SplitWhole(s: string, c: char)
    requires c !in s
    ensures Split(s, c) == [s]
  {
  }

  lemma {:induction false} JoinSplit(s: string, c: char)
    ensures Join(Split(s, c), c) == s
    decreases |s|
  {
    if c in s {
      var k := IndexOf(s, c);
      JoinSplit(s[k + 1..], c);
      assert s == s[..k] + [c] + s[k + 1..];
      assert Split(s, c)[1..] == Split(s[k + 1..], c);
    }
  }

  lemma {:induction false} JoinAvoids(parts: seq<string>, c: char, x: char)
    requires parts != [] && x != c && forall i :: 0 <= i < |parts| ==> x !in parts[i]
    ensures x !in Join(parts, c)
  {
    if |parts| > 1 { JoinAvoids(parts[1..], c, x); }
  }

  lemma {:induction false} JoinSolid(parts: seq<string>, c: char)
    requires parts != [] && !IsSpace(c) && forall i :: 0 <= i < |parts| ==> Token(parts[i])
    ensures Token(Join(parts, c))
  {
    hide IsSpace;
    if |parts| > 1 {
      JoinSolid(parts[1..], c);
    }
  }

  // ----- networks as text -----

  /** Notation this model leaves open: it prints IPv6 networks and reads whatever is not IPv4 CIDR. */
  datatype Notation = Notation(print6: Net -> string, parse: string -> Option<Net>)

  ghost predicate Faithful(o: Notation) {
    && (forall n :: Valid(n) && n.version.V6? ==>
          Token(o.print6(n)) && ':' in o.print6(n) && o.parse(o.print6(n)) == Some(n))
    && (forall s :: o.parse(s).Some? ==> Valid(o.parse(s).value))
  }

  function Octets(addr: nat): seq<nat> {
    [addr / 0x100_0000, addr / 0x1_0000 % 0x100, addr / 0x100 % 0x100, addr % 0x100]
  }

  function FromOctets(q: seq<nat>): nat
    requires |q| == 4
  {
    q[0] * 0x100_0000 + q[1] * 0x1_0000 + q[2] * 0x100 + q[3]
  }

  lemma OctetsBack(addr: nat)
    requires addr < 0x1_0000_0000
    ensures FromOctets(Octets(addr)) == addr
    ensures forall i :: 0 <= i < 4 ==> 0 <= Octets(addr)[i] < 256
  {
    ByteOff(addr, 0x100);
    ByteOff(addr, 0x1_0000);
  }

  /** Dividing twice is dividing once by the product, for the last byte. */
  lemma ByteOff(x: nat, m: nat)
    requires m == 0x100 || m == 0x1_0000
    ensures x / (m * 0x100) == x / m / 0x100
  {
  }

  function Quad(addr: nat): seq<string> {
    var q := Octets(addr);
    [Dec(q[0]), Dec(q[1]), Dec(q[2]), Dec(q[3])]
  }

  function Print4(n: Net): string {
    Join([Join(Quad(n.addr), '.'), Dec(n.len)], '/')
  }

  /** One to three digits, no leading zero, at most 255. */
  predicate IsOctet(s: string) {
    1 <= |s| <= 3 && AllDigits(s) && (|s| > 1 ==> s[0] != '0') && Number(s) <= 255
  }

  predicate IsQuad(q: seq<string>) {
    |q| == 4 && forall i :: 0 <= i < 4 ==> IsOctet(q[i])
  }

  function QuadValue(q: seq<string>): nat
    requires IsQuad(q)
  {
    FromOctets([Number(q[0]), Number(q[1]), Number(q[2]), Number(q[3])])
  }

  predicate IsPrefixLen(s: string) {
    s != [] && AllDigits(s) && Number(s) <= 32
  }

  function Parse4(text: string): (r: Option<Net>)
    ensures r.Some? ==> Valid(r.value)
  {
    var parts := Split(text, '/');
    if |parts| != 2 then None else
      var quad := Split(parts[0], '.');
      if !IsQuad(quad) || !IsPrefixLen(parts[1]) then None else
        var n := Net(V4, QuadValue(quad), Number(parts[1]));
        if Valid(n) then Some(n) else None
  }

  function Show(n: Net, o: Notation): string {
    if n.version.V4? then Print4(n) else o.print6(n)
  }

  function ParseNetwork(text: string, o: Notation): Option<Net> {
    var r := Parse4(text);
    if r.Some? then r else o.parse(text)
  }

  lemma DecOctet(n: nat)
    requires n < 256
    ensures IsOctet(Dec(n)) && AllDigits(Dec(n)) && Number(Dec(n)) == n && Token(Dec(n)) && '.' !in Dec(n) && '/' !in Dec(n)
  {
    hide Dec, IsSpace, Number, Solid;
    DecDigits(n);
    DecValue(n);
    DecShort(n);
    DigitsSolid(Dec(n));
  }

  lemma QuadBack(addr: nat)
    requires addr < 0x1_0000_0000
    ensures IsQuad(Quad(addr)) && QuadValue(Quad(addr)) == addr
    ensures forall i :: 0 <= i < 4 ==> Token(Quad(addr)[i]) && '.' !in Quad(addr)[i] && '/' !in Quad(addr)[i]
  {
    hide IsOctet, Dec, Number, Token, Octets, FromOctets;
    OctetsBack(addr);
    OctetsFour(addr);
    var q := Octets(addr);
    DecOctet(q[0]);
    DecOctet(q[1]);
    DecOctet(q[2]);
    DecOctet(q[3]);
    assert q == [q[0], q[1], q[2], q[3]];
  }

  lemma OctetsFour(addr: nat)
    ensures |Octets(addr)| == 4
  {
  }

  lemma Print4Parses(n: Net)
    requires n.version.V4? && Valid(n)
    ensures Parse4(Print4(n)) == Some(n) && Token(Print4(n))
  {
    hide Split, Join, IsQuad, QuadValue, IsPrefixLen, Quad, Dec, Number, Pow2, Token, Size;
    Bounds4(n);
    QuadBack(n.addr);
    var quad, len := Quad(n.addr), Dec(n.len);
    QuadFour(n.addr);
    DecOctet(n.len);
    var head := Join(quad, '.');
    JoinSolid(quad, '.');
    JoinAvoids(quad, '.', '/');
    SplitJoin(quad, '.');
    SplitJoin([head, len], '/');
    JoinSolid([head, len], '/');
    LenIsPrefix(n.len);
  }

  lemma OctetsOf(q: seq<nat>)
    requires |q| == 4 && forall i :: 0 <= i < 4 ==> q[i] < 256
    ensures Octets(FromOctets(q)) == q
  {
    var x := FromOctets(q);
    assert x / 0x100_0000 == q[0];
    assert x / 0x1_0000 == q[0] * 0x100 + q[1];
    assert x / 0x100 == q[0] * 0x1_0000 + q[1] * 0x100 + q[2];
  }

  /** The parts of a dotted quad are those its value is printed with. */
  lemma QuadIsUnique(q: seq<string>)
    requires IsQuad(q)
    ensures Quad(QuadValue(q)) == q
  {
    hide Dec, Number, FromOctets, Octets, AllDigits;
    var v := [Number(q[0]), Number(q[1]), Number(q[2]), Number(q[3])];
    OctetsOf(v);
    forall i | 0 <= i < 4 ensures Dec(Number(q[i])) == q[i] { DecIsUnique(q[i]); }
  }

  /** A dotted quad of that address, a slash, and digits that spell that length. */
  ghost predicate Spells(text: string, n: Net, len: string) {
    text == Join(Quad(n.addr), '.') + "/" + len && len != [] && AllDigits(len) && Number(len) == n.len
  }

  lemma JoinTwo(a: string, b: string)
    ensures Join([a, b], '/') == a + "/" + b
  {
    assert [a, b][1..] == [b];
  }

  lemma SpelledParses(text: string, n: Net, len: string)
    requires n.version.V4? && Valid(n) && Spells(text, n, len)
    ensures Parse4(text) == Some(n)
  {
    hide Split, Join, IsQuad, QuadValue, Quad, Number, Pow2, Token, Size, AllDigits;
    Bounds4(n);
    QuadBack(n.addr);
    QuadFour(n.addr);
    var quad := Quad(n.addr);
    var head := Join(quad, '.');
    JoinAvoids(quad, '.', '/');
    SplitJoin(quad, '.');
    DigitsAvoid(len);
    SplitJoin([head, len], '/');
    JoinTwo(head, len);
  }

  lemma DigitsAvoid(s: string)
    requires AllDigits(s)
    ensures '/' !in s && '.' !in s
  {
    DigitsSolid(s);
  }

  lemma ParsedIsSpelled(text: string, n: Net) returns (len: string)
    requires Parse4(text) == Some(n)
    ensures n.version.V4? && Valid(n) && Spells(text, n, len)
  {
    hide Split, Join, IsQuad, QuadValue, Quad, Number, Pow2, Size, AllDigits;
    var parts := Split(text, '/');
    var quad := Split(parts[0], '.');
    len := parts[1];
    JoinSplit(text, '/');
    JoinSplit(parts[0], '.');
    QuadIsUnique(quad);
    assert parts == [parts[0], parts[1]];
    JoinTwo(parts[0], parts[1]);
  }

  /** What is read as an IPv4 network, exactly: four canonical octets, and a length in digits. */
  lemma Parse4Exactly(text: string, n: Net)
    ensures Parse4(text) == Some(n) <==> n.version.V4? && Valid(n) && exists len :: Spells(text, n, len)
  {
    hide Parse4, Spells, Valid;
    if Parse4(text) == Some(n) {
      var len := ParsedIsSpelled(text, n);
      assert Spells(text, n, len);
    }
    if len :| n.version.V4? && Valid(n) && Spells(text, n, len) { SpelledParses(text, n, len); }
  }

  lemma QuadFour(addr: nat)
    ensures |Quad(addr)| == 4
  {
  }

  lemma LenIsPrefix(len: nat)
    requires len <= 32
    ensures IsPrefixLen(Dec(len)) && Number(Dec(len)) == len
  {
    DecDigits(len);
    DecValue(len);
  }

  lemma Bounds4(n: Net)
    requires n.version.V4? && Valid(n)
    ensures n.addr < 0x1_0000_0000 && n.len <= 32
  {
    Pow2Short();
  }

  /** The special-purpose blocks of IPv4 by name. */
  lemma NonPublicNames()
    ensures |NonPublic()| == 14
    ensures Print4(NonPublic()[0]) == "0.0.0.0/8" && Print4(NonPublic()[1]) == "10.0.0.0/8"
    ensures Print4(NonPublic()[2]) == "100.64.0.0/10" && Print4(NonPublic()[3]) == "127.0.0.0/8"
    ensures Print4(NonPublic()[4]) == "169.254.0.0/16" && Print4(NonPublic()[5]) == "172.16.0.0/12"
    ensures Print4(NonPublic()[6]) == "192.0.0.0/24" && Print4(NonPublic()[7]) == "192.168.0.0/16"
    ensures Print4(NonPublic()[8]) == "198.18.0.0/15" && Print4(NonPublic()[9]) == "224.0.0.0/3"
    ensures forall i :: 0 <= i < 14 ==> (NonPublic()[i].version.V4? <==> i < 10)
  {
    hide Dec, Print4;
    Numerals();
    PrintIs(0, 0, 0, 0, 8);
    PrintIs(10, 0, 0, 0, 8);
    PrintIs(100, 64, 0, 0, 10);
    PrintIs(127, 0, 0, 0, 8);
    PrintIs(169, 254, 0, 0, 16);
    PrintIs(172, 16, 0, 0, 12);
    PrintIs(192, 0, 0, 0, 24);
    PrintIs(192, 168, 0, 0, 16);
    PrintIs(198, 18, 0, 0, 15);
    PrintIs(224, 0, 0, 0, 3);
  }

  lemma Numerals()
    ensures Dec(0) == "0" && Dec(3) == "3" && Dec(8) == "8" && Dec(10) == "10" && Dec(12) == "12" && Dec(15) == "15"
    ensures Dec(16) == "16" && Dec(18) == "18" && Dec(24) == "24" && Dec(64) == "64" && Dec(100) == "100"
    ensures Dec(127) == "127" && Dec(168) == "168" && Dec(169) == "169" && Dec(172) == "172" && Dec(192) == "192"
    ensures Dec(198) == "198" && Dec(224) == "224" && Dec(254) == "254"
  {
  }

  /** Dotted notation: the four bytes from the highest down, and the length. */
  lemma PrintIs(a: nat, b: nat, c: nat, d: nat, len: nat)
    requires a < 256 && b < 256 && c < 256 && d < 256
    ensures Print4(Net(V4, a * 0x100_0000 + b * 0x1_0000 + c * 0x100 + d, len))
         == Dec(a) + "." + Dec(b) + "." + Dec(c) + "." + Dec(d) + "/" + Dec(len)
  {
    hide Dec, Octets, Join;
    OctetsOf([a, b, c, d]);
    var n := Net(V4, a * 0x100_0000 + b * 0x1_0000 + c * 0x100 + d, len);
    assert n.addr == FromOctets([a, b, c, d]);
    assert Quad(n.addr) == [Dec(a), Dec(b), Dec(c), Dec(d)];
    JoinTwo(Join(Quad(n.addr), '.'), Dec(len));
    JoinFour(Dec(a), Dec(b), Dec(c), Dec(d));
  }

  lemma JoinCons(a: string, parts: seq<string>, c: char)
    requires parts != []
    ensures Join([a] + parts, c) == a + [c] + Join(parts, c)
  {
    assert ([a] + parts)[1..] == parts;
  }

  lemma JoinFour(a: string, b: string, c: string, d: string)
    ensures Join([a, b, c, d], '.') == a + "." + b + "." + c + "." + d
  {
    assert Join([d], '.') == d;
    hide Join;
    JoinCons(c, [d], '.');
    JoinCons(b, [c, d], '.');
    JoinCons(a, [b, c, d], '.');
    assert [c] + [d] == [c, d] && [b] + [c, d] == [b, c, d] && [a] + [b, c, d] == [a, b, c, d];
  }

  /** A text with a colon is never read as IPv4. */
  lemma ColonIsNot4(text: string)
    requires ':' in text
    ensures Parse4(text) == None
  {
    hide Split, Join, IsPrefixLen, IsOctet;
    var parts := Split(text, '/');
    JoinSplit(text, '/');
    var quad := Split(parts[0], '.');
    JoinSplit(parts[0], '.');
    if |parts| == 2 && IsQuad(quad) && IsPrefixLen(parts[1]) {
      forall i | 0 <= i < 4 ensures ':' !in quad[i] { OctetHasNoColon(quad[i]); }
      JoinAvoids(quad, '.', ':');
      PrefixHasNoColon(parts[1]);
      JoinAvoids(parts, '/', ':');
      assert false;
    }
  }

  lemma OctetHasNoColon(s: string)
    requires IsOctet(s)
    ensures ':' !in s
  {
    DigitsSolid(s);
  }

  lemma PrefixHasNoColon(s: string)
    requires IsPrefixLen(s)
    ensures ':' !in s
  {
    DigitsSolid(s);
  }

  /** What is printed for a network is one token, and reads back as that network. */
  lemma ShowParse(n: Net, o: Notation)
    requires Valid(n) && Faithful(o)
    ensures Token(Show(n, o)) && ParseNetwork(Show(n, o), o) == Some(n)
  {
    hide Parse4, Print4, Valid, Token;
    if n.version.V4? {
      Print4Parses(n);
    } else {
      ColonIsNot4(o.print6(n));
    }
  }

  lemma ParsedIsValid(text: string, o: Notation)
    requires Faithful(o) && ParseNetwork(text, o).Some?
    ensures Valid(ParseNetwork(text, o).value)
  {
  }
}
