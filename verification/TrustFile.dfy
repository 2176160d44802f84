/**
 `scripts/refresh_cloudfront_origin_ranges.py`: rendering the vendored nginx file, reading it
 back, validating a published list, and the check/write decision.
 */
module TrustFile {
  import opened Cidr
  import opened ConfText
  import opened Text
  import opened Wrappers

  // ----- rendering -----

  function NetLine(n: Net, o: Notation): string {
    "set_real_ip_from " + Show(n, o) + ";"
  }

  function MetaLine(token: string, date: string): string {
    "# syncToken " + token + ", createDate " + date + "."
  }

  function Counts(v4: nat, v6: nat): string {
    "# " + Dec(v4) + " IPv4 + " + Dec(v6) + " IPv6 prefixes."
  }

  /** The fixed comment lines of the header, before and after the two that vary. */
  datatype Banner = Banner(above: seq<string>, below: seq<string>)

  /** A comment line other than the provenance line: its third character is not an `s`. */
  predicate Plain(s: string) {
    OneLine(s) && |s| > 0 && s[0] == '#' && (|s| > 2 ==> s[2] != 's')
  }

  predicate AllPlain(lines: seq<string>) {
    forall i :: 0 <= i < |lines| ==> Plain(lines[i])
  }

  predicate Comments(b: Banner) {
    AllPlain(b.above) && AllPlain(b.below)
  }

  function CountOf(ns: seq<Net>, v: Version): nat {
    if ns == [] then 0 else CountOf(ns[..|ns| - 1], v) + if ns[|ns| - 1].version == v then 1 else 0
  }

  function NetLines(ns: seq<Net>, o: Notation): seq<string> {
    seq(|ns|, i requires 0 <= i < |ns| => NetLine(ns[i], o))
  }

  function HeaderLines(b: Banner, ns: seq<Net>, token: string, date: string): seq<string> {
    b.above + [MetaLine(token, date)] + ([Counts(CountOf(ns, V4), CountOf(ns, V6))] + b.below)
  }

  function Render(b: Banner, ns: seq<Net>, token: string, date: string, o: Notation): string {
    Joined(HeaderLines(b, ns, token, date)) + Joined(NetLines(ns, o))
  }

  /** The file, line by line. */
  lemma {:induction false} RenderedText(b: Banner, ns: seq<Net>, token: string, date: string, o: Notation)
    ensures var v4, v6 := |set i: nat | i < |ns| && ns[i].version.V4?|, |set i: nat | i < |ns| && ns[i].version.V6?|;
            Render(b, ns, token, date, o)
            == Joined(b.above
                      + ["# syncToken " + token + ", createDate " + date + ".",
                         "# " + Dec(v4) + " IPv4 + " + Dec(v6) + " IPv6 prefixes."]
                      + b.below
                      + seq(|ns|, i requires 0 <= i < |ns| => "set_real_ip_from " + Show(ns[i], o) + ";"))
  {
    hide Dec, Show, Joined, CountOf;
    CountIs(ns, V4);
    CountIs(ns, V6);
    var v4, v6 := CountOf(ns, V4), CountOf(ns, V6);
    assert (set i: nat | i < |ns| && ns[i].version.V4?) == Of(ns, V4);
    assert (set i: nat | i < |ns| && ns[i].version.V6?) == Of(ns, V6);
    var nets := seq(|ns|, i requires 0 <= i < |ns| => "set_real_ip_from " + Show(ns[i], o) + ";");
    assert NetLines(ns, o) == nets;
    var meta, counts := MetaLine(token, date), Counts(v4, v6);
    assert HeaderLines(b, ns, token, date) == b.above + [meta, counts] + b.below;
    JoinedConcat(b.above + [meta, counts] + b.below, nets);
  }

  ghost function Of(ns: seq<Net>, v: Version): set<nat> {
    set i: nat | i < |ns| && ns[i].version == v
  }

  lemma {:induction false} CountIs(ns: seq<Net>, v: Version)
    ensures CountOf(ns, v) == |Of(ns, v)|
  {
    if ns == [] {
      assert Of(ns, v) == {};
    } else {
      CountIs(ns[..|ns| - 1], v);
      hide Of;
      OfNext(ns, v);
    }
  }

  lemma OfNext(ns: seq<Net>, v: Version)
    requires ns != []
    ensures |Of(ns, v)| == |Of(ns[..|ns| - 1], v)| + if ns[|ns| - 1].version == v then 1 else 0
  {
    var n: nat := |ns| - 1;
    var was := Of(ns[..n], v);
    assert Of(ns, v) == if ns[n].version == v then was + {n} else was;
  }

  // ----- the two patterns -----

  function FirstSpace(s: string): (k: nat)
    ensures k <= |s| && Solid(s[..k]) && (k < |s| ==> IsSpace(s[k]))
  {
    if s == [] || IsSpace(s[0]) then 0 else
      var k := FirstSpace(s[1..]) + 1;
      assert s[..k] == [s[0]] + s[1..][..k - 1];
      k
  }

  /** A non-empty solid text followed by `last`, and nothing more. */
  function Body(s: string, last: char): Option<string> {
    if |s| >= 2 && s[|s| - 1] == last && Solid(s[..|s| - 1]) then Some(s[..|s| - 1]) else None
  }

  function MatchLine(line: string): Option<string> {
    if StartsWith(line, "set_real_ip_from ") then Body(line[17..], ';') else None
  }

  function TokenMark(): string {
    "# syncToken "
  }

  function DateMark(): string {
    " createDate "
  }

  lemma Marks()
    ensures TokenMark() != [] && DateMark() != [] && DateMark()[0] == ' '
  {
  }

  /** Captures by whole solid runs, as the greedy pattern does. */
  function MatchMeta(line: string): Option<(string, string)> {
    if !StartsWith(line, TokenMark()) then None else
      var rest := line[|TokenMark()|..];
      var k := FirstSpace(rest);
      var token := Body(rest[..k], ',');
      if token.None? || !StartsWith(rest[k..], DateMark()) then None else
        var date := Body(rest[k..][|DateMark()|..], '.');
        if date.None? then None else Some((token.value, date.value))
  }

  lemma BodyIff(s: string, last: char, t: string)
    ensures Body(s, last) == Some(t) <==> Token(t) && s == t + [last]
  {
    if Token(t) && s == t + [last] {
      assert s[..|s| - 1] == t;
    }
    if Body(s, last) == Some(t) {
      assert s == t + [last];
    }
  }

  lemma {:induction false} FirstSpaceAt(s: string, k: nat)
    requires k <= |s| && Solid(s[..k]) && (k < |s| ==> IsSpace(s[k]))
    ensures FirstSpace(s) == k
  {
    hide IsSpace;
    if k > 0 {
      assert !IsSpace(s[..k][0]);
      assert s[1..][..k - 1] == s[..k][1..];
      FirstSpaceAt(s[1..], k - 1);
    }
  }

  lemma PrefixCut(p: string, s: string)
    ensures StartsWith(p + s, p) && (p + s)[|p|..] == s
  {
    assert (p + s)[..|p|] == p;
  }

  lemma PrefixWhole(s: string, p: string)
    requires StartsWith(s, p)
    ensures |p| <= |s| && s == p + s[|p|..]
  {
  }

  lemma MatchLineIff(line: string, t: string)
    ensures MatchLine(line) == Some(t) <==> Token(t) && line == "set_real_ip_from " + t + ";"
  {
    hide Body, Token, StartsWith;
    var p: string := "set_real_ip_from ";
    assert |p| == 17;
    if StartsWith(line, p) {
      PrefixWhole(line, p);
      BodyIff(line[17..], ';', t);
    }
    PrefixCut(p, t + ";");
    assert p + (t + ";") == p + t + ";";
  }

  /** The part of the provenance line after its prefix. */
  lemma RunEnds(t: string, rest: string)
    requires Token(t) && rest != [] && IsSpace(rest[0])
    ensures FirstSpace(t + "," + rest) == |t| + 1
  {
    var s := t + "," + rest;
    assert s[..|t| + 1] == t + ",";
    FirstSpaceAt(s, |t| + 1);
  }

  lemma MetaForward(t: string, d: string)
    requires Token(t) && Token(d)
    ensures MatchMeta(MetaLine(t, d)) == Some((t, d))
  {
    hide Body, Token, StartsWith, FirstSpace, IsSpace, TokenMark, DateMark, MetaLine;
    Marks();
    var tail := DateMark() + (d + ".");
    var rest := t + "," + tail;
    MetaLineIs(t, d);
    PrefixCut(TokenMark(), rest);
    SpaceIsSpace();
    RunEnds(t, tail);
    assert rest[..|t| + 1] == t + "," && rest[|t| + 1..] == tail;
    BodyIff(t + ",", ',', t);
    PrefixCut(DateMark(), d + ".");
    BodyIff(d + ".", '.', d);
  }

  lemma SpaceIsSpace()
    ensures IsSpace(' ')
  {
  }

  lemma MetaBackward(line: string, t: string, d: string)
    requires MatchMeta(line) == Some((t, d))
    ensures Token(t) && Token(d) && line == MetaLine(t, d)
  {
    hide Body, Token, StartsWith, FirstSpace, IsSpace, TokenMark, DateMark, MetaLine;
    PrefixWhole(line, TokenMark());
    var rest := line[|TokenMark()|..];
    var k := FirstSpace(rest);
    PrefixWhole(rest[k..], DateMark());
    BodyIff(rest[..k], ',', t);
    BodyIff(rest[k..][|DateMark()|..], '.', d);
    assert rest == rest[..k] + rest[k..];
    MetaLineIs(t, d);
  }

  /** The pattern matches exactly the provenance lines, and the captures are its two tokens. */
  lemma MatchMetaIff(line: string, t: string, d: string)
    ensures MatchMeta(line) == Some((t, d)) <==>
            Token(t) && Token(d) && line == "# syncToken " + t + ", createDate " + d + "."
  {
    hide *;
    assert MetaLine(t, d) == "# syncToken " + t + ", createDate " + d + "." by { MetaText(t, d); }
    if MatchMeta(line) == Some((t, d)) {
      MetaBackward(line, t, d);
    } else if Token(t) && Token(d) {
      MetaForward(t, d);
    }
  }

  lemma MetaText(t: string, d: string)
    ensures MetaLine(t, d) == "# syncToken " + t + ", createDate " + d + "."
  {
  }

  lemma MetaLineIs(t: string, d: string)
    ensures MetaLine(t, d) == TokenMark() + (t + "," + (DateMark() + (d + ".")))
  {
    assert ", createDate " == "," + " createDate ";
  }

  /** The part of a provenance line after its first mark. */
  function AfterMark(t: string, d: string): string {
    t + "," + (DateMark() + (d + "."))
  }

  lemma AfterMarkAt(t: string, d: string, k: nat)
    ensures |AfterMark(t, d)| == |t| + |d| + 14
    ensures k < |t| ==> AfterMark(t, d)[k] == t[k]
    ensures AfterMark(t, d)[|t|] == ','
    ensures |t| < k <= |t| + 12 ==> |DateMark()| == 12 && AfterMark(t, d)[k] == DateMark()[k - |t| - 1]
    ensures |t| + 12 < k <= |t| + 12 + |d| ==> AfterMark(t, d)[k] == d[k - |t| - 13]
    ensures AfterMark(t, d)[|t| + |d| + 13] == '.'
  {
  }

  /** The second mark has blanks at its two ends and nowhere else. */
  lemma MarkBlanks(k: nat)
    requires k < |DateMark()|
    ensures IsSpace(DateMark()[k]) <==> k == 0 || k == 11
  {
  }

  /** Between solid tokens the only blanks are those of the mark. */
  lemma BlanksOfMark(t: string, d: string, k: nat)
    requires Solid(t) && Solid(d) && k < |AfterMark(t, d)| && IsSpace(AfterMark(t, d)[k])
    ensures k == |t| + 1 || k == |t| + 12
  {
    AfterMarkAt(t, d, k);
    hide AfterMark, DateMark;
    if |t| < k <= |t| + 12 { MarkBlanks(k - |t| - 1); }
  }

  lemma MarkIsBlank(t: string, d: string)
    ensures |AfterMark(t, d)| > |t| + 12 && IsSpace(AfterMark(t, d)[|t| + 1]) && IsSpace(AfterMark(t, d)[|t| + 12])
  {
    AfterMarkAt(t, d, |t| + 1);
    AfterMarkAt(t, d, |t| + 12);
    hide AfterMark;
    MarkBlanks(0);
    MarkBlanks(11);
  }

  /** A provenance line of solid tokens can be read in one way only. */
  lemma MetaLineOnce(t: string, d: string, t': string, d': string)
    requires Solid(t') && Solid(d') && MetaLine(t, d) == MetaLine(t', d')
    ensures t == t' && d == d'
  {
    hide MetaLine, Solid, IsSpace, DateMark, TokenMark, AfterMark;
    MetaLineIs(t, d);
    MetaLineIs(t', d');
    AfterMarkIs(t, d);
    AfterMarkIs(t', d');
    PrefixCut(TokenMark(), AfterMark(t, d));
    PrefixCut(TokenMark(), AfterMark(t', d'));
    assert AfterMark(t, d) == AfterMark(t', d');
    MarkIsBlank(t, d);
    BlanksOfMark(t', d', |t| + 1);
    BlanksOfMark(t', d', |t| + 12);
    assert |t| == |t'|;
    forall k: nat | k < |t| ensures t[k] == t'[k] {
      AfterMarkAt(t, d, k);
      AfterMarkAt(t', d', k);
    }
    AfterMarkAt(t, d, 0);
    AfterMarkAt(t', d', 0);
    forall k: nat | k < |d| ensures d[k] == d'[k] {
      AfterMarkAt(t, d, |t| + 13 + k);
      AfterMarkAt(t', d', |t| + 13 + k);
    }
  }

  lemma AfterMarkIs(t: string, d: string)
    ensures AfterMark(t, d) == t + "," + (DateMark() + (d + "."))
  {
  }

  /** What is written as provenance is recognised exactly when both tokens are solid and non-empty. */
  lemma MetaMatchesExactly(t: string, d: string)
    ensures MatchMeta(MetaLine(t, d)).Some? <==> Token(t) && Token(d)
  {
    hide MatchMeta, MetaLine, Token;
    if Token(t) && Token(d) {
      MetaForward(t, d);
    } else if MatchMeta(MetaLine(t, d)).Some? {
      var m := MatchMeta(MetaLine(t, d)).value;
      assert m == (m.0, m.1);
      MetaBackward(MetaLine(t, d), m.0, m.1);
      TokenIsSolid(m.0);
      TokenIsSolid(m.1);
      MetaLineOnce(t, d, m.0, m.1);
      assert false;
    }
  }

  lemma TokenIsSolid(s: string)
    requires Token(s)
    ensures Solid(s)
  {
  }

  // ----- reading the file -----

  /** What one line of the file is to the reader. */
  datatype Item = Blank | Comment | Meta(token: string, date: string) | Entry(net: Net) | Malformed | BadNetwork

  function ItemOf(line: string, o: Notation): Item {
    if AllSpace(line) then Blank
    else if line[0] == '#' then
      var m := MatchMeta(line);
      if m.Some? then Meta(m.value.0, m.value.1) else Comment
    else
      var t := MatchLine(line);
      if t.None? then Malformed else
        var n := ParseNetwork(t.value, o);
        if n.Some? then Entry(n.value) else BadNetwork
  }

  /** An entry line for the text `t`. */
  ghost predicate Names(line: string, t: string) {
    Token(t) && line == "set_real_ip_from " + t + ";"
  }

  /**
   What a line is taken for, exactly: white space alone is skipped and `#` starts a comment, which
   may be the provenance; anything else must be an entry for a network, or it is refused.
   */
  lemma {:induction false} ItemIs(line: string, o: Notation)
    ensures ItemOf(line, o).Blank? <==> AllSpace(line)
    ensures forall t, d :: ItemOf(line, o) == Meta(t, d) <==>
              Token(t) && Token(d) && line == "# syncToken " + t + ", createDate " + d + "."
    ensures ItemOf(line, o).Comment? || ItemOf(line, o).Meta? <==> line != [] && line[0] == '#'
    ensures forall n :: ItemOf(line, o) == Entry(n) <==> exists t :: Names(line, t) && ParseNetwork(t, o) == Some(n)
    ensures ItemOf(line, o).BadNetwork? <==> exists t :: Names(line, t) && ParseNetwork(t, o).None?
    ensures ItemOf(line, o).Malformed? <==>
            !AllSpace(line) && line[0] != '#' && forall t :: !Names(line, t)
  {
    hide MatchMeta, MatchLine, ParseNetwork, Token, AllSpace, Names;
    if line != [] && line[0] == '#' { HashIsNoSpace(line); }
    BlankHasNoHead(line);
    forall t, d ensures MatchMeta(line) == Some((t, d)) <==>
              Token(t) && Token(d) && line == "# syncToken " + t + ", createDate " + d + "." {
      MatchMetaIff(line, t, d);
    }
    forall t ensures MatchLine(line) == Some(t) <==> Names(line, t) { NamesIs(line, t); }
    forall t ensures Names(line, t) ==> line != [] && line[0] == 's' { NamesHead(line, t); }
    forall t, d: string ensures line == "# syncToken " + t + ", createDate " + d + "." ==> line != [] && line[0] == '#' {
      MetaHead(line, t, d);
    }
  }

  lemma NamesIs(line: string, t: string)
    ensures MatchLine(line) == Some(t) <==> Names(line, t)
  {
    hide MatchLine, Token;
    MatchLineIff(line, t);
  }

  lemma NamesHead(line: string, t: string)
    ensures Names(line, t) ==> line != [] && line[0] == 's'
  {
    hide Token;
  }

  lemma MetaHead(line: string, t: string, d: string)
    ensures line == "# syncToken " + t + ", createDate " + d + "." ==> line != [] && line[0] == '#'
  {
  }

  lemma BlankHasNoHead(line: string)
    ensures line == [] ==> AllSpace(line)
    ensures line != [] && (line[0] == '#' || line[0] == 's') ==> !AllSpace(line)
  {
    assert !IsSpace('#') && !IsSpace('s');
  }

  function Items(lines: seq<string>, o: Notation): seq<Item> {
    seq(|lines|, i requires 0 <= i < |lines| => ItemOf(lines[i], o))
  }

  predicate Readable(items: seq<Item>) {
    forall i :: 0 <= i < |items| ==> !items[i].Malformed? && !items[i].BadNetwork?
  }

  /** The networks, in file order. */
  function Entries(items: seq<Item>): seq<Net> {
    if items == [] then []
    else Entries(items[..|items| - 1]) + if items[|items| - 1].Entry? then [items[|items| - 1].net] else []
  }

  /** The first provenance line wins. */
  function FirstMeta(items: seq<Item>): Option<(string, string)> {
    if items == [] then None
    else
      var before := FirstMeta(items[..|items| - 1]);
      var last := items[|items| - 1];
      if before.Some? then before else if last.Meta? then Some((last.token, last.date)) else None
  }

  /** The provenance is that of the first line that has one. */
  lemma {:induction false} FirstMetaIs(items: seq<Item>, k: nat, t: string, d: string)
    requires k < |items| && items[k] == Meta(t, d) && forall i :: 0 <= i < k ==> !items[i].Meta?
    ensures FirstMeta(items) == Some((t, d))
    decreases |items|
  {
    var n := |items| - 1;
    if k == n {
      NoMeta(items[..n]);
    } else {
      FirstMetaIs(items[..n], k, t, d);
    }
  }

  lemma {:induction false} NoMeta(items: seq<Item>)
    requires forall i :: 0 <= i < |items| ==> !items[i].Meta?
    ensures FirstMeta(items) == None
  {
    if items != [] { NoMeta(items[..|items| - 1]); }
  }

  /** `nets` are those of the entries at the places of `at`, which are all the entries, in order. */
  ghost predicate EntriesAt(nets: seq<Net>, items: seq<Item>, at: seq<nat>) {
    && |at| == |nets| && (forall i, j :: 0 <= i < j < |at| ==> at[i] < at[j])
    && (forall i :: 0 <= i < |at| ==> at[i] < |items| && items[at[i]] == Entry(nets[i]))
    && (forall k: nat :: k < |items| && items[k].Entry? ==> k in at)
  }

  lemma NoEntries()
    ensures EntriesAt([], [], [])
  {
  }

  lemma EntriesAtNext(nets: seq<Net>, items: seq<Item>, at: seq<nat>, item: Item)
    requires EntriesAt(nets, items, at)
    ensures !item.Entry? ==> EntriesAt(nets + [], items + [item], at)
    ensures item.Entry? ==> EntriesAt(nets + [item.net], items + [item], at + [|items| as nat])
  {
    var more := items + [item];
    assert nets + [] == nets;
    forall k: nat | k < |items| && more[k].Entry? ensures k in at { assert items[k].Entry?; }
    if item.Entry? {
      assert (at + [|items| as nat])[|at|] == |items|;
      forall k: nat | k < |more| && more[k].Entry? ensures k in at + [|items| as nat] {
      }
    }
  }

  /** The networks are those of the entries, each in its place and none left out. */
  lemma {:induction false} EntriesAre(items: seq<Item>) returns (at: seq<nat>)
    ensures EntriesAt(Entries(items), items, at)
    decreases |items|
  {
    hide EntriesAt;
    if items == [] {
      at := [];
      NoEntries();
    } else {
      var n: nat := |items| - 1;
      at := EntriesAre(items[..n]);
      EntriesAtNext(Entries(items[..n]), items[..n], at, items[n]);
      assert items == items[..n] + [items[n]];
      if items[n].Entry? { at := at + [n]; }
    }
  }

  datatype Conf = Conf(nets: seq<Net>, token: string, date: string)

  datatype ConfError = MalformedLine(number: nat) | NotANetwork(number: nat) | NoProvenance

  /** The reader's answer: the first offending line, or the whole content. */
  ghost predicate Reads(items: seq<Item>, r: Result<Conf, ConfError>) {
    if r.Ok? then
      && Readable(items)
      && FirstMeta(items) == Some((r.value.token, r.value.date))
      && r.value.nets == Entries(items)
    else if r.error.NoProvenance? then Readable(items) && FirstMeta(items).None?
    else
      && 1 <= r.error.number <= |items|
      && (forall i :: 0 <= i < r.error.number - 1 ==> !items[i].Malformed? && !items[i].BadNetwork?)
      && (if r.error.MalformedLine? then items[r.error.number - 1].Malformed? else items[r.error.number - 1].BadNetwork?)
  }

  /** The loop after `i` lines. */
  ghost predicate ReadSoFar(items: seq<Item>, i: nat, nets: seq<Net>, meta: Option<(string, string)>) {
    i <= |items| && Readable(items[..i]) && nets == Entries(items[..i]) && meta == FirstMeta(items[..i])
  }

  lemma {:induction false} ReadNext(items: seq<Item>, i: nat, nets: seq<Net>, meta: Option<(string, string)>)
    requires i < |items| && ReadSoFar(items, i, nets, meta)
    requires !items[i].Malformed? && !items[i].BadNetwork?
    ensures ReadSoFar(items, i + 1,
      nets + (if items[i].Entry? then [items[i].net] else []),
      if meta.None? && items[i].Meta? then Some((items[i].token, items[i].date)) else meta)
  {
    assert items[..i + 1][..i] == items[..i];
  }

  lemma ReadStart(items: seq<Item>)
    ensures ReadSoFar(items, 0, [], None)
  {
  }

  lemma ReadEnd(items: seq<Item>, nets: seq<Net>, meta: Option<(string, string)>)
    requires ReadSoFar(items, |items|, nets, meta)
    ensures Readable(items) && nets == Entries(items) && meta == FirstMeta(items)
  {
    assert items[..|items|] == items;
  }

  lemma ReadStops(items: seq<Item>, i: nat, nets: seq<Net>, meta: Option<(string, string)>)
    requires i < |items| && ReadSoFar(items, i, nets, meta) && (items[i].Malformed? || items[i].BadNetwork?)
    ensures Reads(items, Err(if items[i].Malformed? then MalformedLine(i + 1) else NotANetwork(i + 1)))
  {
    forall k | 0 <= k < i ensures !items[k].Malformed? && !items[k].BadNetwork? { assert items[..i][k] == items[k]; }
  }

  /** `parse_conf`. */
  method ParseConf(text: string, o: Notation) returns (r: Result<Conf, ConfError>)
    ensures Reads(Items(SplitLines(text), o), r)
  {
    hide *;
    var lines := SplitLines(text);
    ghost var items := Items(lines, o);
    ItemsAre(lines, o);
    var nets: seq<Net>, meta: Option<(string, string)>, i := [], None, 0;
    ReadStart(items);
    while i < |lines|
      invariant 0 <= i <= |lines| && ReadSoFar(items, i, nets, meta)
    {
      var line := lines[i];
      var item := ReadLine(line, o);
      if item.Malformed? || item.BadNetwork? {
        ReadStops(items, i, nets, meta);
        return Err(if item.Malformed? then MalformedLine(i + 1) else NotANetwork(i + 1));
      }
      ReadNext(items, i, nets, meta);
      if item.Entry? {
        nets := nets + [item.net];
      } else if item.Meta? && meta.None? {
        meta := Some((item.token, item.date));
      }
      assert nets + [] == nets;
      i := i + 1;
    }
    ReadEnd(items, nets, meta);
    Finish(items, meta);
    if meta.None? {
      return Err(NoProvenance);
    }
    return Ok(Conf(nets, meta.value.0, meta.value.1));
  }

  lemma Finish(items: seq<Item>, meta: Option<(string, string)>)
    requires Readable(items) && meta == FirstMeta(items)
    ensures meta.None? ==> Reads(items, Err(NoProvenance))
    ensures meta.Some? ==> Reads(items, Ok(Conf(Entries(items), meta.value.0, meta.value.1)))
  {
    hide Readable, FirstMeta, Entries;
    if meta.Some? { assert meta.value == (meta.value.0, meta.value.1); }
  }

  lemma ItemsAre(lines: seq<string>, o: Notation)
    ensures |Items(lines, o)| == |lines|
    ensures forall i :: 0 <= i < |lines| ==> Items(lines, o)[i] == ItemOf(lines[i], o)
  {
    hide ItemOf;
  }

  /** One line, as the loop body tells it apart. */
  method ReadLine(line: string, o: Notation) returns (item: Item)
    ensures item == ItemOf(line, o)
  {
    hide MatchMeta, MatchLine, ParseNetwork;
    if AllSpace(line) {
      return Blank;
    }
    if line[0] == '#' {
      var m := MatchMeta(line);
      return if m.Some? then Meta(m.value.0, m.value.1) else Comment;
    }
    var t := MatchLine(line);
    if t.None? {
      return Malformed;
    }
    var n := ParseNetwork(t.value, o);
    return if n.Some? then Entry(n.value) else BadNetwork;
  }

  // ----- the round trip -----

  lemma NetLineItem(n: Net, o: Notation)
    requires Valid(n) && Faithful(o)
    ensures ItemOf(NetLine(n, o), o) == Entry(n) && OneLine(NetLine(n, o))
  {
    hide Show, ParseNetwork, Token, MatchMeta, MatchLine, Valid, Faithful, OneLine;
    ShowParse(n, o);
    var t := Show(n, o);
    MatchLineIff(NetLine(n, o), t);
    NetLineIsOneLine(n, o);
    NetLineHead(n, o);
  }

  lemma NetLineHead(n: Net, o: Notation)
    ensures NetLine(n, o)[0] == 's' && !AllSpace(NetLine(n, o))
  {
    hide Show;
    assert NetLine(n, o)[0] == 's';
    assert !IsSpace('s');
  }

  lemma TokenIsOneLine(s: string)
    requires Token(s)
    ensures OneLine(s)
  {
    SolidIsOneLine(s);
  }

  lemma NetLineIsOneLine(n: Net, o: Notation)
    requires Token(Show(n, o))
    ensures OneLine(NetLine(n, o))
  {
    hide Show, Token;
    TokenIsOneLine(Show(n, o));
    OneLineConcat("set_real_ip_from ", Show(n, o));
    OneLineConcat("set_real_ip_from " + Show(n, o), ";");
  }

  lemma MetaItem(t: string, d: string, o: Notation)
    requires Token(t) && Token(d)
    ensures ItemOf(MetaLine(t, d), o) == Meta(t, d) && OneLine(MetaLine(t, d))
  {
    hide Token, MatchMeta, MatchLine, OneLine;
    MetaForward(t, d);
    TokenIsOneLine(t);
    TokenIsOneLine(d);
    MetaLineIsOneLine(t, d);
    HashIsNoSpace(MetaLine(t, d));
  }

  /** Without two solid tokens the provenance line is a comment like any other. */
  lemma MetaIsComment(t: string, d: string, o: Notation)
    requires OneLine(t) && OneLine(d) && !(Token(t) && Token(d))
    ensures ItemOf(MetaLine(t, d), o) == Comment && OneLine(MetaLine(t, d))
  {
    hide Token, MatchMeta, MatchLine, OneLine;
    MetaMatchesExactly(t, d);
    MetaLineIsOneLine(t, d);
    HashIsNoSpace(MetaLine(t, d));
  }

  lemma MetaLineIsOneLine(t: string, d: string)
    requires OneLine(t) && OneLine(d)
    ensures OneLine(MetaLine(t, d))
  {
    hide OneLine;
    MetaPiecesAreOneLine();
    OneLineConcat("# syncToken ", t);
    OneLineConcat("# syncToken " + t, ", createDate ");
    OneLineConcat("# syncToken " + t + ", createDate ", d);
    OneLineConcat("# syncToken " + t + ", createDate " + d, ".");
  }

  lemma MetaPiecesAreOneLine()
    ensures OneLine("# syncToken ") && OneLine(", createDate ") && OneLine(".")
  {
  }

  lemma HashIsNoSpace(s: string)
    requires s != [] && s[0] == '#'
    ensures !AllSpace(s)
  {
    assert !IsSpace('#');
  }

  lemma PlainItem(s: string, o: Notation)
    requires Plain(s)
    ensures ItemOf(s, o) == Comment
  {
    hide OneLine, Body, FirstSpace;
    HashIsNoSpace(s);
    assert TokenMark()[2] == 's';
    assert !StartsWith(s, TokenMark());
  }

  lemma PlainBoth(s: string, o: Notation)
    requires Plain(s)
    ensures ItemOf(s, o) == Comment && OneLine(s)
  {
    hide ItemOf;
    PlainItem(s, o);
  }

  lemma DecIsOneLine(n: nat)
    ensures OneLine(Dec(n))
  {
    hide Dec, OneLine;
    DecDigits(n);
    DigitsSolid(Dec(n));
    SolidIsOneLine(Dec(n));
  }

  lemma PlainConcat(a: string, b: string)
    requires Plain(a) && |a| > 2 && OneLine(b)
    ensures Plain(a + b)
  {
  }

  lemma PlainCounts(v4: nat, v6: nat)
    ensures Plain(Counts(v4, v6))
  {
    hide Dec;
    DecDigits(v4);
    DecIsOneLine(v4);
    DecIsOneLine(v6);
    assert IsDigit(Dec(v4)[0]);
    assert OneLine("# ") && OneLine(" IPv4 + ") && OneLine(" IPv6 prefixes.");
    OneLineConcat("# ", Dec(v4));
    hide OneLine;
    PlainConcat("# " + Dec(v4), " IPv4 + ");
    PlainConcat("# " + Dec(v4) + " IPv4 + ", Dec(v6));
    PlainConcat("# " + Dec(v4) + " IPv4 + " + Dec(v6), " IPv6 prefixes.");
  }

  function CommentItems(k: nat): seq<Item> {
    seq(k, _ => Comment)
  }

  /** Plain lines read as comments. */
  lemma PlainItems(lines: seq<string>, o: Notation)
    requires AllPlain(lines)
    ensures Items(lines, o) == CommentItems(|lines|)
    ensures forall i :: 0 <= i < |lines| ==> OneLine(lines[i])
  {
    hide Plain, ItemOf, OneLine;
    forall i | 0 <= i < |lines| ensures ItemOf(lines[i], o) == Comment && OneLine(lines[i]) { PlainBoth(lines[i], o); }
  }

  /** The header as it reads: comments, the provenance line as whatever it is, comments. */
  function HeadItems(b: Banner, provenance: Item): seq<Item> {
    CommentItems(|b.above|) + [provenance] + CommentItems(1 + |b.below|)
  }

  lemma HeaderItems(b: Banner, ns: seq<Net>, t: string, d: string, o: Notation)
    requires Comments(b) && OneLine(MetaLine(t, d))
    ensures forall i :: 0 <= i < |HeaderLines(b, ns, t, d)| ==> OneLine(HeaderLines(b, ns, t, d)[i])
    ensures Items(HeaderLines(b, ns, t, d), o) == HeadItems(b, ItemOf(MetaLine(t, d), o))
  {
    hide Plain, Counts, MetaLine, ItemOf, OneLine, Items, CommentItems, CountOf;
    var meta, counts := [MetaLine(t, d)], [Counts(CountOf(ns, V4), CountOf(ns, V6))] + b.below;
    PlainCounts(CountOf(ns, V4), CountOf(ns, V6));
    PlainItems(b.above, o);
    PlainItems(counts, o);
    OneItem(MetaLine(t, d), o);
    ItemsConcat(b.above, meta, o);
    ItemsConcat(b.above + meta, counts, o);
    assert 1 + |b.below| == |counts|;
  }

  lemma OneItem(line: string, o: Notation)
    ensures Items([line], o) == [ItemOf(line, o)]
  {
    hide ItemOf;
  }

  /** An `Entry` per network, in order. */
  function EntryItems(ns: seq<Net>): seq<Item> {
    seq(|ns|, i requires 0 <= i < |ns| => Entry(ns[i]))
  }

  lemma NetItems(ns: seq<Net>, o: Notation)
    requires Faithful(o) && forall i :: 0 <= i < |ns| ==> Valid(ns[i])
    ensures forall i :: 0 <= i < |ns| ==> OneLine(NetLines(ns, o)[i])
    ensures Items(NetLines(ns, o), o) == EntryItems(ns)
  {
    hide Faithful, Valid, OneLine, NetLine, ItemOf;
    forall i | 0 <= i < |ns| ensures OneLine(NetLines(ns, o)[i]) && ItemOf(NetLines(ns, o)[i], o) == Entry(ns[i]) {
      NetLineItem(ns[i], o);
    }
  }

  lemma ItemsConcat(a: seq<string>, b: seq<string>, o: Notation)
    ensures Items(a + b, o) == Items(a, o) + Items(b, o)
  {
    hide ItemOf;
  }

  lemma {:induction false} EntriesOfNets(head: seq<Item>, ns: seq<Net>)
    ensures Entries(head + EntryItems(ns)) == Entries(head) + ns
    ensures FirstMeta(head + EntryItems(ns)) == FirstMeta(head)
    decreases |ns|
  {
    if ns == [] {
      assert head + EntryItems(ns) == head;
    } else {
      var k := |ns| - 1;
      EntriesOfNets(head, ns[..k]);
      var all := head + EntryItems(ns);
      assert all[..|all| - 1] == head + EntryItems(ns[..k]);
      assert all[|all| - 1] == Entry(ns[k]);
      assert ns == ns[..k] + [ns[k]];
    }
  }

  lemma {:induction false} CommentsAdd(items: seq<Item>, k: nat)
    ensures Entries(items + CommentItems(k)) == Entries(items)
    ensures FirstMeta(items + CommentItems(k)) == FirstMeta(items)
    decreases k
  {
    var all := items + CommentItems(k);
    if k == 0 {
      assert all == items;
    } else {
      CommentsAdd(items, k - 1);
      assert all[..|all| - 1] == items + CommentItems(k - 1);
    }
  }

  lemma {:induction false} MetaAdds(items: seq<Item>, t: string, d: string)
    ensures Entries(items + [Meta(t, d)]) == Entries(items)
    ensures FirstMeta(items) == None ==> FirstMeta(items + [Meta(t, d)]) == Some((t, d))
  {
    assert (items + [Meta(t, d)])[..|items|] == items;
  }

  lemma NoItems()
    ensures Entries([]) == [] && FirstMeta([]) == None
  {
  }

  lemma HeadOfFile(b: Banner, t: string, d: string)
    ensures Entries(HeadItems(b, Meta(t, d))) == [] && FirstMeta(HeadItems(b, Meta(t, d))) == Some((t, d))
  {
    hide Entries, FirstMeta, CommentItems;
    NoItems();
    CommentsAdd([], |b.above|);
    assert [] + CommentItems(|b.above|) == CommentItems(|b.above|);
    MetaAdds(CommentItems(|b.above|), t, d);
    CommentsAdd(CommentItems(|b.above|) + [Meta(t, d)], 1 + |b.below|);
  }

  lemma UnprovenHead(b: Banner)
    ensures FirstMeta(HeadItems(b, Comment)) == None
  {
    hide Entries, FirstMeta, CommentItems;
    NoItems();
    CommentsAdd([], |b.above|);
    assert [] + CommentItems(|b.above|) == CommentItems(|b.above|);
    OneComment();
    CommentsAdd(CommentItems(|b.above|), 1);
    CommentsAdd(CommentItems(|b.above|) + [Comment], 1 + |b.below|);
  }

  lemma OneComment()
    ensures CommentItems(1) == [Comment]
  {
  }

  lemma FileItems(b: Banner, ns: seq<Net>, t: string, d: string, o: Notation)
    requires Comments(b) && Faithful(o) && OneLine(MetaLine(t, d)) && forall i :: 0 <= i < |ns| ==> Valid(ns[i])
    ensures Items(SplitLines(Render(b, ns, t, d, o)), o) == HeadItems(b, ItemOf(MetaLine(t, d), o)) + EntryItems(ns)
  {
    hide *;
    var head, tail := HeaderLines(b, ns, t, d), NetLines(ns, o);
    HeaderItems(b, ns, t, d, o);
    NetItems(ns, o);
    NetLinesCount(ns, o);
    JoinedConcat(head, tail);
    RenderIs(b, ns, t, d, o);
    SplitJoined(head + tail);
    ItemsConcat(head, tail, o);
  }

  lemma RenderIs(b: Banner, ns: seq<Net>, t: string, d: string, o: Notation)
    ensures Render(b, ns, t, d, o) == Joined(HeaderLines(b, ns, t, d)) + Joined(NetLines(ns, o))
  {
  }

  lemma NetLinesCount(ns: seq<Net>, o: Notation)
    ensures |NetLines(ns, o)| == |ns|
  {
  }

  /** Reading gives one answer. */
  lemma ReadsOnce(items: seq<Item>, r: Result<Conf, ConfError>, q: Result<Conf, ConfError>)
    requires Reads(items, r) && Reads(items, q)
    ensures r == q
  {
    hide FirstMeta, Entries;
  }

  /** Whatever is read has solid tokens and proper networks. */
  lemma {:induction false} MetaIsSolid(lines: seq<string>, o: Notation)
    ensures FirstMeta(Items(lines, o)).Some? ==>
      Token(FirstMeta(Items(lines, o)).value.0) && Token(FirstMeta(Items(lines, o)).value.1)
  {
    hide Token, ItemOf;
    if lines != [] {
      var k := |lines| - 1;
      MetaIsSolid(lines[..k], o);
      assert Items(lines, o)[..k] == Items(lines[..k], o);
      MetaItemSolid(lines[k], o);
    }
  }

  lemma MetaItemSolid(line: string, o: Notation)
    ensures ItemOf(line, o).Meta? ==> Token(ItemOf(line, o).token) && Token(ItemOf(line, o).date)
  {
    hide Token, MatchMeta, MatchLine, ParseNetwork, AllSpace;
    if ItemOf(line, o).Meta? {
      MatchMetaIff(line, ItemOf(line, o).token, ItemOf(line, o).date);
    }
  }

  /**
   The generated file reads back as exactly what was rendered, under any banner of comments, if
   and only if both provenance tokens are non-empty and free of white space.
   */
  lemma RoundTrip(b: Banner, ns: seq<Net>, t: string, d: string, o: Notation)
    requires Comments(b) && Faithful(o) && forall i :: 0 <= i < |ns| ==> Valid(ns[i])
    ensures Reads(Items(SplitLines(Render(b, ns, t, d, o)), o), Ok(Conf(ns, t, d))) <==> Token(t) && Token(d)
  {
    hide *;
    var lines := SplitLines(Render(b, ns, t, d, o));
    if Token(t) && Token(d) {
      MetaItem(t, d, o);
      FileItems(b, ns, t, d, o);
      HeadOfFile(b, t, d);
      EntriesOfNets(HeadItems(b, Meta(t, d)), ns);
      ReadableFile(b, Meta(t, d), ns);
      Finish(HeadItems(b, Meta(t, d)) + EntryItems(ns), Some((t, d)));
      assert [] + ns == ns;
    } else {
      MetaIsSolid(lines, o);
      ReadsMeta(Items(lines, o), Ok(Conf(ns, t, d)));
    }
  }

  lemma ReadableFile(b: Banner, provenance: Item, ns: seq<Net>)
    requires !provenance.Malformed? && !provenance.BadNetwork?
    ensures Readable(HeadItems(b, provenance) + EntryItems(ns))
  {
  }

  /** With tokens that stay on their line, what fails to read back fails for want of provenance. */
  lemma NoProvenanceExactly(b: Banner, ns: seq<Net>, t: string, d: string, o: Notation)
    requires Comments(b) && Faithful(o) && OneLine(t) && OneLine(d) && forall i :: 0 <= i < |ns| ==> Valid(ns[i])
    ensures Reads(Items(SplitLines(Render(b, ns, t, d, o)), o), Err(NoProvenance)) <==> !(Token(t) && Token(d))
  {
    hide *;
    var items := Items(SplitLines(Render(b, ns, t, d, o)), o);
    RoundTrip(b, ns, t, d, o);
    if Token(t) && Token(d) {
      if Reads(items, Err(NoProvenance)) { ReadsOnce(items, Ok(Conf(ns, t, d)), Err(NoProvenance)); }
    } else {
      MetaIsComment(t, d, o);
      FileItems(b, ns, t, d, o);
      UnprovenHead(b);
      EntriesOfNets(HeadItems(b, Comment), ns);
      ReadableFile(b, Comment, ns);
      Finish(HeadItems(b, Comment) + EntryItems(ns), None);
    }
  }

  lemma ReadsMeta(items: seq<Item>, r: Result<Conf, ConfError>)
    ensures Reads(items, r) && r.Ok? ==>
      && Readable(items) && FirstMeta(items) == Some((r.value.token, r.value.date)) && r.value.nets == Entries(items)
  {
    hide Readable, FirstMeta, Entries;
  }

  // ----- validating a published list -----

  datatype RangesError = NotAPrefix(text: string) | NotPublic(net: Net) | TooBroad(net: Net) | TooFew(count: nat)

  function Judge(text: string, o: Notation, isGlobal: Net -> bool): Result<Net, RangesError> {
    var n := ParseNetwork(text, o);
    if n.None? then Err(NotAPrefix(text))
    else if !Public(n.value, isGlobal) then Err(NotPublic(n.value))
    else if n.value.len < MinPrefixLen(n.value.version) then Err(TooBroad(n.value))
    else Ok(n.value)
  }

  /**
   A prefix is accepted exactly when it reads as a network that is global, holds no special-purpose
   address, and is no broader than /12 (IPv4) or /32 (IPv6).
   */
  lemma JudgesExactly(text: string, o: Notation, isGlobal: Net -> bool, n: Net)
    requires Faithful(o)
    ensures Judge(text, o, isGlobal) == Ok(n) <==>
      && ParseNetwork(text, o) == Some(n) && isGlobal(n) && n.len >= (if n.version.V4? then 12 else 32)
      && forall i, x ::
           0 <= i < |NonPublic()| && NonPublic()[i].version == n.version && Contains(n, x) ==> !Contains(NonPublic()[i], x)
  {
    hide Public, Contains, NonPublic, ParseNetwork, Valid, Faithful;
    if ParseNetwork(text, o) == Some(n) {
      ParsedIsValid(text, o);
      PublicAvoidsSpecial(n, isGlobal);
    }
  }

  ghost predicate Listed(raw: seq<string>, k: nat, o: Notation, isGlobal: Net -> bool, n: Net) {
    exists i :: 0 <= i < k && i < |raw| && Judge(raw[i], o, isGlobal) == Ok(n)
  }

  ghost predicate Gathered(raw: seq<string>, k: nat, o: Notation, isGlobal: Net -> bool, ns: set<Net>) {
    forall n :: n in ns <==> Listed(raw, k, o, isGlobal, n)
  }

  predicate Enough(ns: set<Net>) {
    |ns| >= MIN_PREFIXES && exists n :: n in ns && n.version.V4?
  }

  /** The answer about a published list: its networks in file order, or the first thing wrong with it. */
  ghost predicate Validated(raw: seq<string>, o: Notation, isGlobal: Net -> bool, r: Result<seq<Net>, RangesError>) {
    if r.Ok? then
      && (forall i :: 0 <= i < |raw| ==> Judge(raw[i], o, isGlobal).Ok?)
      && Ascending(r.value) && (forall n :: n in r.value <==> Listed(raw, |raw|, o, isGlobal, n))
      && |r.value| >= 10 && (exists n :: n in r.value && n.version.V4?)
    else if r.error.TooFew? then
      && (forall i :: 0 <= i < |raw| ==> Judge(raw[i], o, isGlobal).Ok?)
      && exists ns :: Gathered(raw, |raw|, o, isGlobal, ns) && r.error.count == |ns| && !Enough(ns)
    else
      exists k :: 0 <= k < |raw| && Judge(raw[k], o, isGlobal) == Err(r.error)
        && forall i :: 0 <= i < k ==> Judge(raw[i], o, isGlobal).Ok?
  }

  lemma ListedNext(raw: seq<string>, k: nat, o: Notation, isGlobal: Net -> bool, n: Net)
    requires k < |raw| && Judge(raw[k], o, isGlobal).Ok?
    ensures Listed(raw, k + 1, o, isGlobal, n) <==> Listed(raw, k, o, isGlobal, n) || Judge(raw[k], o, isGlobal) == Ok(n)
  {
    hide Judge;
  }

  lemma NoneGathered(raw: seq<string>, o: Notation, isGlobal: Net -> bool)
    ensures Gathered(raw, 0, o, isGlobal, {})
  {
  }

  lemma GatheredNext(raw: seq<string>, k: nat, o: Notation, isGlobal: Net -> bool, ns: set<Net>, net: Net)
    requires k < |raw| && Gathered(raw, k, o, isGlobal, ns) && Judge(raw[k], o, isGlobal) == Ok(net)
    ensures Gathered(raw, k + 1, o, isGlobal, ns + {net})
  {
    hide Listed, Judge;
    forall n ensures n in ns + {net} <==> Listed(raw, k + 1, o, isGlobal, n) {
      ListedNext(raw, k, o, isGlobal, n);
    }
  }

  /** A record of the published document, and the document as far as it is read. */
  datatype Published = Published(prefix: string, service: string)

  datatype Document = Document(prefixes: seq<Published>, ipv6: seq<Published>, token: string, date: string)

  const SERVICE := "CLOUDFRONT_ORIGIN_FACING"

  function OfService(records: seq<Published>): seq<string> {
    if records == [] then []
    else (if records[0].service == SERVICE then [records[0].prefix] else []) + OfService(records[1..])
  }

  /** The prefixes listed for the service, IPv4 first. */
  function Raw(doc: Document): seq<string> {
    OfService(doc.prefixes) + OfService(doc.ipv6)
  }

  lemma {:induction false} OfServiceIs(records: seq<Published>, text: string)
    ensures text in OfService(records) <==> Published(text, SERVICE) in records
  {
    if records != [] {
      OfServiceIs(records[1..], text);
      assert records == [records[0]] + records[1..];
    }
  }

  /** Only records of the service are looked at, and all of them. */
  lemma RawIs(doc: Document, text: string)
    ensures text in Raw(doc) <==> Published(text, SERVICE) in doc.prefixes || Published(text, SERVICE) in doc.ipv6
  {
    hide OfService;
    OfServiceIs(doc.prefixes, text);
    OfServiceIs(doc.ipv6, text);
  }

  /** `origin_facing_networks`. */
  method OriginFacing(doc: Document, o: Notation, isGlobal: Net -> bool) returns (r: Result<seq<Net>, RangesError>)
    ensures Validated(Raw(doc), o, isGlobal, r)
  {
    hide Judge, Ascending, Listed;
    var raw := Raw(doc);
    var networks: set<Net>, i := {}, 0;
    NoneGathered(raw, o, isGlobal);
    while i < |raw|
      invariant 0 <= i <= |raw|
      invariant forall k :: 0 <= k < i ==> Judge(raw[k], o, isGlobal).Ok?
      invariant Gathered(raw, i, o, isGlobal, networks)
    {
      var net := Judge(raw[i], o, isGlobal);
      if net.Err? {
        JudgeError(raw[i], o, isGlobal);
        return Err(net.error);
      }
      GatheredNext(raw, i, o, isGlobal, networks, net.value);
      networks := networks + {net.value};
      i := i + 1;
    }
    if !Enough(networks) {
      return Err(TooFew(|networks|));
    }
    var sorted := Sorted(networks);
    return Ok(sorted);
  }

  lemma JudgeError(text: string, o: Notation, isGlobal: Net -> bool)
    ensures Judge(text, o, isGlobal).Err? ==> !Judge(text, o, isGlobal).error.TooFew?
  {
  }

  /** Every network written is a proper block, no broader than allowed, with no special-purpose address in it. */
  lemma WrittenIsPublic(raw: seq<string>, o: Notation, isGlobal: Net -> bool, ns: seq<Net>, n: Net)
    requires Faithful(o) && Validated(raw, o, isGlobal, Ok(ns)) && n in ns
    ensures Valid(n) && n.len >= MinPrefixLen(n.version) && isGlobal(n)
    ensures forall i, x :: 0 <= i < |NonPublic()| && NonPublic()[i].version == n.version && Contains(n, x) ==>
              !Contains(NonPublic()[i], x)
  {
    hide Ascending, Valid, Contains, NonPublic, Judge, Faithful, Public;
    assert Listed(raw, |raw|, o, isGlobal, n);
    var i :| 0 <= i < |raw| && Judge(raw[i], o, isGlobal) == Ok(n);
    JudgedOk(raw[i], o, isGlobal, n);
    PublicAvoidsSpecial(n, isGlobal);
  }

  lemma JudgedOk(text: string, o: Notation, isGlobal: Net -> bool, n: Net)
    requires Faithful(o) && Judge(text, o, isGlobal) == Ok(n)
    ensures Valid(n) && Public(n, isGlobal) && n.len >= MinPrefixLen(n.version)
  {
    hide Public, ParseNetwork, Valid, Faithful;
    ParsedIsValid(text, o);
  }

  /** Validation gives one answer. */
  lemma ValidatedOnce(raw: seq<string>, o: Notation, isGlobal: Net -> bool, a: seq<Net>, r: Result<seq<Net>, RangesError>)
    requires Validated(raw, o, isGlobal, Ok(a)) && Validated(raw, o, isGlobal, r)
    ensures r == Ok(a)
  {
    hide Ascending, Listed, Judge;
    if r.Ok? {
      AscendingUnique(a, r.value);
    } else if r.error.TooFew? {
      var ns :| Gathered(raw, |raw|, o, isGlobal, ns) && r.error.count == |ns| && !Enough(ns);
      AscendingSize(a, ns);
      assert false;
    }
  }

  lemma {:induction false} AscendingSize(s: seq<Net>, ns: set<Net>)
    requires Ascending(s) && forall n :: n in ns <==> n in s
    ensures |s| == |ns|
    decreases |s|
  {
    hide Before;
    if s == [] {
      assert ns == {};
    } else {
      forall x ensures x in s[1..] <==> x in ns - {s[0]} { RestOf(s, x); }
      AscendingSize(s[1..], ns - {s[0]});
      assert s[0] in ns;
    }
  }

  // ----- the check/write decision -----

  datatype Outcome = UpToDate | Stale | Wrote | Refused(error: RangesError) | Unreadable(problem: ConfError)

  predicate SameSet(a: seq<Net>, b: seq<Net>) {
    (set n | n in a) == (set n | n in b)
  }

  /** The same networks, in whatever order. */
  ghost predicate Same(a: seq<Net>, b: seq<Net>) {
    forall n :: n in a <==> n in b
  }

  lemma SameSetIs(a: seq<Net>, b: seq<Net>)
    ensures SameSet(a, b) <==> Same(a, b)
  {
    var x, y := set n | n in a, set n | n in b;
    assert forall n :: n in a <==> n in x;
    assert forall n :: n in b <==> n in y;
  }

  /** What a run that got a valid list does with the file. */
  ghost predicate Decided(before: Option<string>, latest: seq<Net>, token: string, date: string, check: bool,
    banner: Banner, o: Notation, outcome: Outcome, after: Option<string>)
  {
    && !outcome.Refused?
    && (outcome.Unreadable? ==>
          before.Some? && Reads(Items(SplitLines(before.value), o), Err(outcome.problem)) && after == before)
    && (outcome.UpToDate? ==> Current(before, latest, o) && after == before)
    && (outcome.Stale? ==> check && Differs(before, latest, o) && after == before)
    && (outcome.Wrote? ==> !check && Differs(before, latest, o) && after == Some(Render(banner, latest, token, date, o)))
  }

  ghost predicate Current(before: Option<string>, latest: seq<Net>, o: Notation) {
    before.Some? && exists c :: Reads(Items(SplitLines(before.value), o), Ok(c)) && c.nets != [] && Same(c.nets, latest)
  }

  ghost predicate Differs(before: Option<string>, latest: seq<Net>, o: Notation) {
    before.Some? ==>
      exists c :: Reads(Items(SplitLines(before.value), o), Ok(c)) && (c.nets == [] || !Same(c.nets, latest))
  }

  lemma CurrentIsCurrent(before: Option<string>, latest: seq<Net>, token: string, date: string, banner: Banner, o: Notation,
    outcome: Outcome, after: Option<string>)
    requires Current(before, latest, o) && Decided(before, latest, token, date, true, banner, o, outcome, after)
    ensures outcome == UpToDate
  {
    hide Reads, Items, SplitLines, Same, Render;
    var items := Items(SplitLines(before.value), o);
    var c :| Reads(items, Ok(c)) && c.nets != [] && Same(c.nets, latest);
    forall r | Reads(items, r) ensures r == Ok(c) { ReadsOnce(items, r, Ok(c)); }
  }

  lemma RenderedIsCurrent(latest: seq<Net>, token: string, date: string, banner: Banner, o: Notation)
    requires Comments(banner) && Faithful(o) && Token(token) && Token(date) && latest != []
    requires forall i :: 0 <= i < |latest| ==> Valid(latest[i])
    ensures Current(Some(Render(banner, latest, token, date, o)), latest, o)
  {
    hide Reads, Items, SplitLines, Faithful, Token, Valid, Render, Comments;
    RoundTrip(banner, latest, token, date, o);
    assert Same(Conf(latest, token, date).nets, latest);
  }

  class VendoredFile {
    var content: Option<string>

    /** `main`, on the document as loaded. */
    method Refresh(doc: Document, check: bool, banner: Banner, o: Notation, isGlobal: Net -> bool)
      returns (outcome: Outcome, latest: Result<seq<Net>, RangesError>)
      modifies this
      ensures Validated(Raw(doc), o, isGlobal, latest)
      ensures latest.Err? ==> outcome == Refused(latest.error) && content == old(content)
      ensures latest.Ok? ==> Decided(old(content), latest.value, doc.token, doc.date, check, banner, o, outcome, content)
    {
      hide Validated, Reads, Items, SplitLines, SameSet, Same, Render;
      latest := OriginFacing(doc, o, isGlobal);
      if latest.Err? {
        return Refused(latest.error), latest;
      }
      var current: seq<Net> := [];
      if content.Some? {
        var conf := ParseConf(content.value, o);
        if conf.Err? {
          return Unreadable(conf.error), latest;
        }
        current := conf.value.nets;
        assert Reads(Items(SplitLines(content.value), o), Ok(conf.value));
      }
      SameSetIs(current, latest.value);
      if SameSet(current, latest.value) && current != [] {
        return UpToDate, latest;
      }
      if check {
        return Stale, latest;
      }
      content := Some(Render(banner, latest.value, doc.token, doc.date, o));
      outcome := Wrote;
    }

    /**
     A `--check` on the same data after a refresh. A file that was up to date still is; one that
     was written is, if both provenance tokens are solid and non-empty; with tokens that stay on
     their line but are not, it cannot be read for want of provenance.
     */
    method RefreshThenCheck(doc: Document, banner: Banner, o: Notation, isGlobal: Net -> bool)
      returns (first: Outcome, second: Outcome)
      requires Comments(banner) && Faithful(o)
      modifies this
      ensures first.UpToDate? ==> second == UpToDate
      ensures first.Wrote? && Token(doc.token) && Token(doc.date) ==> second == UpToDate
      ensures first.Wrote? && OneLine(doc.token) && OneLine(doc.date) && !(Token(doc.token) && Token(doc.date)) ==>
                second == Unreadable(NoProvenance)
    {
      hide *;
      var latest, again;
      first, latest := Refresh(doc, false, banner, o, isGlobal);
      ghost var written := content;
      second, again := Refresh(doc, true, banner, o, isGlobal);
      if first.Wrote? || first.UpToDate? {
        AfterRefresh(Raw(doc), banner, o, isGlobal, latest, again, old(content), doc.token, doc.date, first, written);
        if first.UpToDate? || (Token(doc.token) && Token(doc.date)) {
          CurrentIsCurrent(written, latest.value, doc.token, doc.date, banner, o, second, content);
        } else if OneLine(doc.token) && OneLine(doc.date) {
          UnprovenIsUnreadable(written, latest.value, doc.token, doc.date, banner, o, second, content);
        }
      }
    }
  }

  /** After a write or an up-to-date finding: the same list again, and the file holds it if it can be read. */
  lemma AfterRefresh(raw: seq<string>, banner: Banner, o: Notation, isGlobal: Net -> bool,
    latest: Result<seq<Net>, RangesError>, again: Result<seq<Net>, RangesError>, before: Option<string>,
    token: string, date: string, first: Outcome, written: Option<string>)
    requires Comments(banner) && Faithful(o)
    requires Validated(raw, o, isGlobal, latest) && Validated(raw, o, isGlobal, again)
    requires latest.Err? ==> first == Refused(latest.error)
    requires latest.Ok? ==> Decided(before, latest.value, token, date, false, banner, o, first, written)
    requires first.Wrote? || first.UpToDate?
    ensures latest.Ok? && again == latest && forall i :: 0 <= i < |latest.value| ==> Valid(latest.value[i])
    ensures first.UpToDate? || (Token(token) && Token(date)) ==> Current(written, latest.value, o)
    ensures first.Wrote? ==> written == Some(Render(banner, latest.value, token, date, o))
  {
    hide Validated, Reads, Items, SplitLines, SameSet, Same, Render, Faithful, Token, Valid, Current, Differs, Comments;
    ValidatedOnce(raw, o, isGlobal, latest.value, again);
    forall i | 0 <= i < |latest.value| ensures Valid(latest.value[i]) {
      WrittenIsPublic(raw, o, isGlobal, latest.value, latest.value[i]);
    }
    if first.Wrote? && Token(token) && Token(date) {
      ValidatedSize(raw, o, isGlobal, latest.value);
      RenderedIsCurrent(latest.value, token, date, banner, o);
    }
  }

  lemma UnprovenIsUnreadable(before: Option<string>, latest: seq<Net>, token: string, date: string, banner: Banner,
    o: Notation, outcome: Outcome, after: Option<string>)
    requires Comments(banner) && Faithful(o) && OneLine(token) && OneLine(date) && !(Token(token) && Token(date))
    requires forall i :: 0 <= i < |latest| ==> Valid(latest[i])
    requires before == Some(Render(banner, latest, token, date, o))
    requires Decided(before, latest, token, date, true, banner, o, outcome, after)
    ensures outcome == Unreadable(NoProvenance)
  {
    hide Reads, Items, SplitLines, Same, Render, Comments, Faithful, OneLine, Token, Valid;
    var items := Items(SplitLines(before.value), o);
    NoProvenanceExactly(banner, latest, token, date, o);
    forall r | Reads(items, r) ensures r == Err(NoProvenance) { ReadsOnce(items, r, Err(NoProvenance)); }
  }

  lemma ValidatedSize(raw: seq<string>, o: Notation, isGlobal: Net -> bool, ns: seq<Net>)
    requires Validated(raw, o, isGlobal, Ok(ns))
    ensures |ns| >= 10
  {
  }
}
