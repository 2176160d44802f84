/**
 `match_route` and `summarize` of `scripts/alb_latency_report.py`: which route a row counts
 under, and how rows are folded into per-route figures that add up.
 */
module AlbReport {
  import opened Sorting
  import opened Text
  import opened Wrappers
  import opened Quantiles

  // ----- routes -----

  /** `route.rstrip("/")`. */
  function Stripped(route: string): (r: string)
    ensures StartsWith(route, r)
    ensures r == [] || r[|r| - 1] != '/'
  {
    if route == [] || route[|route| - 1] != '/' then route
    else
      var r := Stripped(route[..|route| - 1]);
      assert route[..|route| - 1][..|r|] == route[..|r|];
      r
  }

  function Base(route: string): string {
    if Stripped(route) == [] then "/" else Stripped(route)
  }

  predicate Matches(path: string, route: string) {
    path == Base(route) || path == route || StartsWith(path, Base(route) + "/")
  }

  const OTHER := "(other)"

  /** The loop's `best` after the first `k` routes. */
  function Best(path: string, routes: seq<string>, k: nat): Option<string>
    requires k <= |routes|
  {
    if k == 0 then None
    else
      var best, route := Best(path, routes, k - 1), routes[k - 1];
      if Matches(path, route) && (best.None? || |Base(route)| > |Stripped(best.value)|) then Some(route) else best
  }

  function RouteOf(path: string, routes: seq<string>): string {
    var best := Best(path, routes, |routes|);
    if best.Some? then best.value else OTHER
  }

  /** `match_route`. */
  method MatchRoute(path: string, routes: seq<string>) returns (r: string)
    ensures r == RouteOf(path, routes)
  {
    hide Matches, Base, Stripped;
    var best: Option<string>, k := None, 0;
    while k < |routes|
      invariant 0 <= k <= |routes| && best == Best(path, routes, k)
    {
      var base := Base(routes[k]);
      if Matches(path, routes[k]) && (best.None? || |base| > |Stripped(best.value)|) {
        best := Some(routes[k]);
      }
      k := k + 1;
    }
    r := if best.Some? then best.value else OTHER;
  }

  lemma BaseStarts(path: string, route: string)
    requires path != [] && Matches(path, route)
    ensures StartsWith(path, Base(route))
  {
    var base := Base(route);
    assert (base + "/")[..|base|] == base;
    if path == route {
      if Stripped(route) == [] {
        RootsAreSlashes(route);
      }
    } else if StartsWith(path, base + "/") {
      assert path[..|base| + 1][..|base|] == path[..|base|];
    }
  }

  /** A route that strips to nothing starts with a slash, unless it is empty. */
  lemma {:induction false} RootsAreSlashes(route: string)
    requires Stripped(route) == []
    ensures route == [] || route[0] == '/'
  {
    if |route| > 1 { RootsAreSlashes(route[..|route| - 1]); }
  }

  predicate AllSlashes(s: string) {
    forall k :: 0 <= k < |s| ==> s[k] == '/'
  }

  /** The base of a route is the route without its trailing slashes. */
  lemma {:induction false} StrippedIs(base: string, slashes: string)
    requires AllSlashes(slashes) && (base == [] || base[|base| - 1] != '/')
    ensures Stripped(base + slashes) == base
    decreases |slashes|
  {
    var route := base + slashes;
    if slashes == [] {
      assert route == base;
    } else {
      assert route[..|route| - 1] == base + slashes[..|slashes| - 1];
      StrippedIs(base, slashes[..|slashes| - 1]);
    }
  }

  /**
   A path matches a route exactly when it is the route, the route without its trailing slashes, or
   lies below it; the root route has the base `/`.
   */
  lemma {:induction false} MatchesIs(path: string, base: string, slashes: string)
    requires AllSlashes(slashes) && (base == [] || base[|base| - 1] != '/')
    ensures base != [] ==>
              (Matches(path, base + slashes) <==>
                 path == base || path == base + slashes || exists below :: path == base + "/" + below)
    ensures base == [] ==>
              (Matches(path, base + slashes) <==>
                 path == "/" || path == slashes || exists below :: path == "//" + below)
  {
    hide Stripped;
    StrippedIs(base, slashes);
    assert [] + slashes == slashes;
    BelowIs(path, base + "/");
    BelowIs(path, "//");
    assert "/" + "/" == "//";
  }

  lemma BelowIs(path: string, prefix: string)
    ensures StartsWith(path, prefix) <==> exists below :: path == prefix + below
  {
    if StartsWith(path, prefix) { assert path == prefix + path[|prefix|..]; }
  }

  /** What the loop has found among the first `k` routes. */
  ghost predicate Leads(path: string, routes: seq<string>, k: nat, at: nat) {
    && at < k <= |routes| && Matches(path, routes[at])
    && (forall j :: 0 <= j < k && Matches(path, routes[j]) ==> |Base(routes[j])| <= |Base(routes[at])|)
    && (Stripped(routes[at]) != [] ==>
          forall j :: 0 <= j < at && Matches(path, routes[j]) && Stripped(routes[j]) != [] ==>
            |Base(routes[j])| < |Base(routes[at])|)
    && (Stripped(routes[at]) == [] ==>
          && (forall j :: 0 <= j < k && Matches(path, routes[j]) ==> Stripped(routes[j]) == [])
          && (forall j :: at < j < k ==> !Matches(path, routes[j])))
  }

  lemma BaseSize(route: string)
    ensures |Base(route)| == if Stripped(route) == [] then 1 else |Stripped(route)|
  {
    hide Stripped;
  }

  lemma {:induction false} BestLeads(path: string, routes: seq<string>, k: nat) returns (at: nat)
    requires k <= |routes|
    ensures Best(path, routes, k).None? ==> forall j :: 0 <= j < k ==> !Matches(path, routes[j])
    ensures Best(path, routes, k).Some? ==> Leads(path, routes, k, at) && routes[at] == Best(path, routes, k).value
  {
    hide Matches, Base, Stripped;
    at := 0;
    if k > 0 {
      var best, route := Best(path, routes, k - 1), routes[k - 1];
      at := BestLeads(path, routes, k - 1);
      forall j | 0 <= j < k
        ensures |Base(routes[j])| == if Stripped(routes[j]) == [] then 1 else |Stripped(routes[j])|
      {
        BaseSize(routes[j]);
      }
      if Matches(path, route) && (best.None? || |Base(route)| > |Stripped(best.value)|) {
        at := k - 1;
      }
    }
  }

  lemma PrefixesNest(path: string, a: string, b: string)
    requires StartsWith(path, a) && StartsWith(path, b) && |a| <= |b|
    ensures StartsWith(b, a)
  {
    assert path[..|b|][..|a|] == path[..|a|];
  }

  /** The bases of two routes that match one path are nested; on an empty path both are the root. */
  lemma BasesNest(path: string, a: string, b: string)
    requires Matches(path, a) && Matches(path, b) && |Base(a)| <= |Base(b)|
    ensures StartsWith(Base(b), Base(a))
  {
    if path == [] {
      assert a == [] && b == [];
    } else {
      hide Base, Matches, StartsWith;
      BaseStarts(path, a);
      BaseStarts(path, b);
      PrefixesNest(path, Base(a), Base(b));
    }
  }

  /**
   Longest prefix: a row goes to `(other)` exactly when no route matches its path; otherwise to a
   matching route whose base extends the base of every matching route. Among routes with that
   base the first is taken, except that of several root routes the last is.
   */
  lemma LongestPrefix(path: string, routes: seq<string>)
    ensures (forall j :: 0 <= j < |routes| ==> !Matches(path, routes[j])) ==> RouteOf(path, routes) == OTHER
    ensures (exists j :: 0 <= j < |routes| && Matches(path, routes[j])) ==>
      exists at ::
        && 0 <= at < |routes| && RouteOf(path, routes) == routes[at] && Matches(path, routes[at])
        && (forall j :: 0 <= j < |routes| && Matches(path, routes[j]) ==> StartsWith(Base(routes[at]), Base(routes[j])))
        && (Stripped(routes[at]) != [] ==>
              forall j :: 0 <= j < at && Matches(path, routes[j]) ==> Base(routes[j]) != Base(routes[at]))
        && (Stripped(routes[at]) == [] ==> forall j :: at < j < |routes| ==> !Matches(path, routes[j]))
  {
    hide Matches, Base, Stripped, StartsWith;
    var at := BestLeads(path, routes, |routes|);
    if Best(path, routes, |routes|).Some? {
      forall j | 0 <= j < |routes| && Matches(path, routes[j])
        ensures StartsWith(Base(routes[at]), Base(routes[j]))
      {
        BasesNest(path, routes[j], routes[at]);
      }
      if Stripped(routes[at]) != [] {
        forall j | 0 <= j < at && Matches(path, routes[j]) ensures Base(routes[j]) != Base(routes[at]) {
          RootBase(routes[j]);
          RootBase(routes[at]);
        }
      }
    }
  }

  /** Only root routes have the base `/`. */
  lemma RootBase(route: string)
    ensures Base(route) == "/" <==> Stripped(route) == []
  {
  }

  // ----- rows -----

  datatype Record = Record(time: int, target: string, path: string, request: real, targetTime: real, response: real)

  predicate Forwarded(r: Record) {
    r.target != "-" && r.targetTime >= 0.0
  }

  function Max0(x: real): real {
    if x > 0.0 then x else 0.0
  }

  /** `total_time`; absent when nothing was forwarded. */
  function TotalTime(r: Record): Option<real> {
    if Forwarded(r) then Some(Max0(r.request) + r.targetTime + Max0(r.response)) else None
  }

  function InWindow(records: seq<Record>, start: int, end: int): seq<Record> {
    if records == [] then []
    else
      var last := records[|records| - 1];
      InWindow(records[..|records| - 1], start, end) + if start <= last.time < end then [last] else []
  }

  /** The rows that count under one route. */
  function Under(rows: seq<Record>, routes: seq<string>, route: string): seq<Record> {
    if rows == [] then []
    else
      var last := rows[|rows| - 1];
      Under(rows[..|rows| - 1], routes, route) + if RouteOf(last.path, routes) == route then [last] else []
  }

  function Times(rows: seq<Record>): seq<real> {
    if rows == [] then []
    else
      var t := TotalTime(rows[|rows| - 1]);
      Times(rows[..|rows| - 1]) + if t.Some? then [t.value] else []
  }

  function Unforwarded(rows: seq<Record>): nat {
    if rows == [] then 0
    else Unforwarded(rows[..|rows| - 1]) + if Forwarded(rows[|rows| - 1]) then 0 else 1
  }

  // ----- which rows, and for how long -----

  /** `at` are the places below `n` that `want` holds, ascending. */
  ghost predicate Places(at: seq<nat>, n: nat, want: set<nat>) {
    && (forall i, j :: 0 <= i < j < |at| ==> at[i] < at[j])
    && (forall i :: 0 <= i < |at| ==> at[i] < n && at[i] in want)
    && (forall k :: k in want ==> k in at)
  }

  lemma PlacesNext(at: seq<nat>, n: nat, want: set<nat>)
    requires Places(at, n, want)
    ensures Places(at, n + 1, want) && Places(at + [n], n + 1, want + {n})
  {
    var more := at + [n];
    assert more[|at|] == n;
    forall k | k in want + {n} ensures k in more {
      if k != n { assert k in at; }
    }
  }

  /** `picked` are the rows at the places of `at`. */
  ghost predicate Picked(picked: seq<Record>, rows: seq<Record>, at: seq<nat>) {
    |at| == |picked| && forall i :: 0 <= i < |at| ==> at[i] < |rows| && picked[i] == rows[at[i]]
  }

  lemma PickedNext(picked: seq<Record>, rows: seq<Record>, at: seq<nat>)
    requires rows != [] && Picked(picked, rows[..|rows| - 1], at)
    ensures var n: nat := |rows| - 1;
            && Picked(picked + [], rows, at) && Picked(picked + [rows[n]], rows, at + [n])
  {
    assert picked + [] == picked;
  }

  /** `times` are the latencies of the rows at the places of `at`. */
  ghost predicate Clocked(times: seq<real>, rows: seq<Record>, at: seq<nat>) {
    |at| == |times| && forall i :: 0 <= i < |at| ==> at[i] < |rows| && Lasts(rows[at[i]], times[i])
  }

  lemma ClockedNext(times: seq<real>, rows: seq<Record>, at: seq<nat>, t: real)
    requires rows != [] && Clocked(times, rows[..|rows| - 1], at)
    ensures Clocked(times + [], rows, at)
    ensures Lasts(rows[|rows| - 1], t) ==> Clocked(times + [t], rows, at + [|rows| - 1 as nat])
  {
    hide Lasts;
    assert times + [] == times;
  }

  ghost function PlacesInWindow(records: seq<Record>, start: int, end: int): set<nat> {
    set k: nat | k < |records| && start <= records[k].time < end
  }

  lemma PlacesInWindowNext(records: seq<Record>, start: int, end: int)
    requires records != []
    ensures var n: nat := |records| - 1; var was := PlacesInWindow(records[..n], start, end);
            PlacesInWindow(records, start, end) == if start <= records[n].time < end then was + {n} else was
  {
  }

  /** The rows of a window are all the rows from `start` on and before `end`, in their order. */
  lemma {:induction false} InWindowIs(records: seq<Record>, start: int, end: int) returns (at: seq<nat>)
    ensures Places(at, |records|, PlacesInWindow(records, start, end))
    ensures Picked(InWindow(records, start, end), records, at)
    decreases |records|
  {
    if records == [] {
      at := [];
    } else {
      hide Places, PlacesInWindow, Picked;
      var n: nat := |records| - 1;
      at := InWindowIs(records[..n], start, end);
      PlacesInWindowNext(records, start, end);
      PlacesNext(at, n, PlacesInWindow(records[..n], start, end));
      PickedNext(InWindow(records[..n], start, end), records, at);
      if start <= records[n].time < end { at := at + [n]; }
    }
  }

  ghost function PlacesUnder(rows: seq<Record>, routes: seq<string>, route: string): set<nat> {
    set k: nat | k < |rows| && RouteOf(rows[k].path, routes) == route
  }

  lemma PlacesUnderNext(rows: seq<Record>, routes: seq<string>, route: string)
    requires rows != []
    ensures var n: nat := |rows| - 1; var was := PlacesUnder(rows[..n], routes, route);
            PlacesUnder(rows, routes, route) == if RouteOf(rows[n].path, routes) == route then was + {n} else was
  {
    hide RouteOf;
  }

  /** The rows of a route are all those whose path is matched to it, in their order. */
  lemma {:induction false} UnderIs(rows: seq<Record>, routes: seq<string>, route: string) returns (at: seq<nat>)
    ensures Places(at, |rows|, PlacesUnder(rows, routes, route))
    ensures Picked(Under(rows, routes, route), rows, at)
    decreases |rows|
  {
    hide RouteOf;
    if rows == [] {
      at := [];
    } else {
      hide Places, PlacesUnder, Picked;
      var n: nat := |rows| - 1;
      at := UnderIs(rows[..n], routes, route);
      PlacesUnderNext(rows, routes, route);
      PlacesNext(at, n, PlacesUnder(rows[..n], routes, route));
      PickedNext(Under(rows[..n], routes, route), rows, at);
      if RouteOf(rows[n].path, routes) == route { at := at + [n]; }
    }
  }

  ghost function PlacesTimed(rows: seq<Record>): set<nat> {
    set k: nat | k < |rows| && rows[k].target != "-" && rows[k].targetTime >= 0.0
  }

  lemma PlacesTimedNext(rows: seq<Record>)
    requires rows != []
    ensures var n: nat := |rows| - 1; var was := PlacesTimed(rows[..n]);
            PlacesTimed(rows) == if Forwarded(rows[n]) then was + {n} else was
  {
  }

  /** The latencies are those of the rows a target answered, in their order; a negative part counts as none. */
  lemma {:induction false} TimesAre(rows: seq<Record>) returns (at: seq<nat>)
    ensures Places(at, |rows|, PlacesTimed(rows))
    ensures Clocked(Times(rows), rows, at) && Unforwarded(rows) == |rows| - |at|
    decreases |rows|
  {
    hide Lasts, TotalTime, Forwarded;
    if rows == [] {
      at := [];
    } else {
      hide Places, PlacesTimed, Clocked;
      var n: nat := |rows| - 1;
      at := TimesAre(rows[..n]);
      PlacesTimedNext(rows);
      PlacesNext(at, n, PlacesTimed(rows[..n]));
      TimeLasts(rows[n]);
      ClockedNext(Times(rows[..n]), rows, at, if Forwarded(rows[n]) then TotalTime(rows[n]).value else 0.0);
      if Forwarded(rows[n]) { at := at + [n]; }
    }
  }

  /** The end-to-end time of a row: its three parts, the outer two as far as they were measured. */
  ghost predicate Lasts(r: Record, t: real) {
    && (r.request >= 0.0 && r.response >= 0.0 ==> t == r.request + r.targetTime + r.response)
    && (r.request >= 0.0 && r.response < 0.0 ==> t == r.request + r.targetTime)
    && (r.request < 0.0 && r.response >= 0.0 ==> t == r.targetTime + r.response)
    && (r.request < 0.0 && r.response < 0.0 ==> t == r.targetTime)
  }

  lemma TimeLasts(r: Record)
    ensures TotalTime(r).Some? <==> Forwarded(r)
    ensures Forwarded(r) ==> Lasts(r, TotalTime(r).value)
  {
  }

  /** `target.rsplit(":", 1)[0]`: the target without its port. */
  function HostOf(target: string): string {
    if ':' !in target then target
    else if target[|target| - 1] == ':' then target[..|target| - 1]
    else HostOf(target[..|target| - 1])
  }

  function Named(ip: string): set<string> {
    if ip == "" then {} else {ip}
  }

  /** The hosts that answered. */
  function Addresses(rows: seq<Record>): set<string> {
    if rows == [] then {}
    else
      var last := rows[|rows| - 1];
      Addresses(rows[..|rows| - 1]) + if Forwarded(last) then Named(HostOf(last.target)) else {}
  }

  lemma {:induction false} HostOfIs(host: string, port: string)
    requires ':' !in port
    ensures HostOf(host + ":" + port) == host && HostOf(port) == port
    decreases |port|
  {
    var t := host + ":" + port;
    assert t[|host|] == ':';
    if port == "" {
      assert t[..|t| - 1] == host;
    } else {
      var n := |port| - 1;
      assert port[n] in port;
      assert t[|t| - 1] == port[n] && t[..|t| - 1] == host + ":" + port[..n];
      HostOfIs(host, port[..n]);
    }
  }

  /** An address is reported exactly when a forwarded row names it. */
  lemma {:induction false} AddressesAre(rows: seq<Record>, ip: string)
    ensures ip in Addresses(rows) <==>
            ip != "" && exists i :: 0 <= i < |rows| && Forwarded(rows[i]) && HostOf(rows[i].target) == ip
  {
    hide HostOf, Forwarded;
    if rows != [] {
      var n := |rows| - 1;
      AddressesAre(rows[..n], ip);
      assert forall i :: 0 <= i < n ==> rows[..n][i] == rows[i];
      assert ip in Addresses(rows[..n]) ==> ip in Addresses(rows);
    }
  }

  lemma {:induction false} AddressesNext(rows: seq<Record>, r: Record)
    ensures Addresses(rows + [r]) == Addresses(rows) + if Forwarded(r) then Named(HostOf(r.target)) else {}
  {
    hide HostOf, Forwarded;
    assert (rows + [r])[..|rows|] == rows;
  }

  /** Every row is either timed or unforwarded. */
  lemma {:induction false} RowsSplit(rows: seq<Record>)
    ensures |Times(rows)| + Unforwarded(rows) == |rows|
  {
    if rows != [] { RowsSplit(rows[..|rows| - 1]); }
  }

  lemma {:induction false} TimesNext(rows: seq<Record>, r: Record)
    ensures Times(rows + [r]) == Times(rows) + if TotalTime(r).Some? then [TotalTime(r).value] else []
    ensures Unforwarded(rows + [r]) == Unforwarded(rows) + if Forwarded(r) then 0 else 1
  {
    hide TotalTime, Forwarded;
    assert (rows + [r])[..|rows|] == rows;
  }

  // ----- the figures of all routes add up -----

  /** What is counted about rows. */
  datatype Figure = All | Timed | Missed

  function Amount(f: Figure, rows: seq<Record>): nat {
    match f
    case All => |rows|
    case Timed => |Times(rows)|
    case Missed => Unforwarded(rows)
  }

  function Share(f: Figure, r: Record): nat {
    match f
    case All => 1
    case Timed => if TotalTime(r).Some? then 1 else 0
    case Missed => if Forwarded(r) then 0 else 1
  }

  /** The figure summed over routes. */
  function Spread(f: Figure, rows: seq<Record>, routes: seq<string>, keys: seq<string>): nat {
    if keys == [] then 0
    else Spread(f, rows, routes, keys[..|keys| - 1]) + Amount(f, Under(rows, routes, keys[|keys| - 1]))
  }

  ghost predicate Covers(keys: seq<string>, rows: seq<Record>, routes: seq<string>) {
    forall i :: 0 <= i < |rows| ==> RouteOf(rows[i].path, routes) in keys
  }

  lemma {:induction false} UnderMore(rows: seq<Record>, record: Record, routes: seq<string>, r: string)
    ensures Under(rows + [record], routes, r)
         == if RouteOf(record.path, routes) == r then Under(rows, routes, r) + [record] else Under(rows, routes, r)
  {
    hide RouteOf;
    assert (rows + [record])[..|rows|] == rows;
  }

  lemma AmountMore(f: Figure, rows: seq<Record>, r: Record)
    ensures Amount(f, rows + [r]) == Amount(f, rows) + Share(f, r)
  {
    hide Times, Unforwarded, TotalTime, Forwarded;
    TimesNext(rows, r);
  }

  /** One more row adds its share under its own route and nowhere else. */
  lemma {:induction false} SpreadMore(f: Figure, rows: seq<Record>, r: Record, routes: seq<string>, keys: seq<string>)
    requires Distinct(keys)
    ensures Spread(f, rows + [r], routes, keys)
         == Spread(f, rows, routes, keys) + if RouteOf(r.path, routes) in keys then Share(f, r) else 0
    decreases |keys|
  {
    hide RouteOf, Under, Amount, Share;
    if keys != [] {
      var n := |keys| - 1;
      SpreadMore(f, rows, r, routes, keys[..n]);
      UnderMore(rows, r, routes, keys[n]);
      AmountMore(f, Under(rows, routes, keys[n]), r);
      assert keys[n] !in keys[..n];
      assert keys == keys[..n] + [keys[n]];
    }
  }

  lemma {:induction false} SpreadNothing(f: Figure, routes: seq<string>, keys: seq<string>)
    ensures Spread(f, [], routes, keys) == 0
  {
    if keys != [] { SpreadNothing(f, routes, keys[..|keys| - 1]); }
  }

  /**
   Each row counts under exactly one route: row counts, timed rows and unforwarded rows, summed
   over the routes, are those of all rows.
   */
  lemma {:induction false} RoutesPartitionRows(f: Figure, rows: seq<Record>, routes: seq<string>, keys: seq<string>)
    requires Distinct(keys) && Covers(keys, rows, routes)
    ensures Spread(f, rows, routes, keys) == Amount(f, rows)
    decreases |rows|
  {
    if rows == [] {
      SpreadNothing(f, routes, keys);
    } else {
      hide RouteOf, Distinct, Spread, Amount, Share;
      var n := |rows| - 1;
      assert rows[..n] + [rows[n]] == rows;
      RoutesPartitionRows(f, rows[..n], routes, keys);
      SpreadMore(f, rows[..n], rows[n], routes, keys);
      AmountMore(f, rows[..n], rows[n]);
    }
  }

  // ----- the order of the report -----

  predicate LexLess(a: string, b: string) {
    if b == [] then false
    else if a == [] then true
    else if a[0] != b[0] then a[0] < b[0]
    else LexLess(a[1..], b[1..])
  }

  lemma {:induction false} LexTotal(a: string, b: string)
    ensures LexLess(a, b) || a == b || LexLess(b, a)
    ensures !(LexLess(a, b) && LexLess(b, a))
  {
    if a != [] && b != [] && a[0] == b[0] {
      LexTotal(a[1..], b[1..]);
      assert a == [a[0]] + a[1..] && b == [b[0]] + b[1..];
    }
  }

  lemma {:induction false} LexTransitive(a: string, b: string, c: string)
    requires LexLess(a, b) && LexLess(b, c)
    ensures LexLess(a, c)
  {
    if a != [] && a[0] == b[0] && b[0] == c[0] { LexTransitive(a[1..], b[1..], c[1..]); }
  }

  /** The order of strings: a prefix comes first, and otherwise the first difference decides. */
  lemma {:induction false} LexIs(common: string, a: string, b: string)
    requires a == [] || b == [] || a[0] != b[0]
    ensures LexLess(common + a, common + b) <==> b != [] && (a == [] || a[0] < b[0])
  {
    if common == [] {
      assert common + a == a && common + b == b;
    } else {
      assert (common + a)[1..] == common[1..] + a && (common + b)[1..] == common[1..] + b;
      LexIs(common[1..], a, b);
    }
  }

  ghost predicate Alphabetical(names: seq<string>) {
    forall i, j :: 0 <= i < j < |names| ==> LexLess(names[i], names[j])
  }

  function ByName(): (string, string) -> bool {
    (a: string, b: string) => a == b || LexLess(a, b)
  }

  lemma ByNameIsOrder()
    ensures Order(ByName())
  {
    hide LexLess;
    forall a, b ensures ByName()(a, b) || ByName()(b, a) { LexTotal(a, b); }
    forall a, b, c | ByName()(a, b) && ByName()(b, c) ensures ByName()(a, c) {
      if a != b && b != c { LexTransitive(a, b, c); }
    }
  }

  /** `sorted(target_ips)`. */
  method InAlphabet(names: set<string>) returns (r: seq<string>)
    ensures Alphabetical(r) && |r| == |names| && forall x :: x in r <==> x in names
  {
    ByNameIsOrder();
    hide Order, LexLess;
    r := SortSet(names, ByName());
  }

  /** Busier routes first, ties by name. */
  predicate Ahead(counts: map<string, nat>, a: string, b: string) {
    CountIn(counts, a) > CountIn(counts, b) || (CountIn(counts, a) == CountIn(counts, b) && LexLess(a, b))
  }

  function CountIn(m: map<string, nat>, route: string): nat {
    if route in m then m[route] else 0
  }

  function ListIn(m: map<string, seq<real>>, route: string): seq<real> {
    if route in m then m[route] else []
  }

  ghost predicate Ranked(keys: seq<string>, counts: map<string, nat>) {
    forall i, j :: 0 <= i < j < |keys| ==> Ahead(counts, keys[i], keys[j])
  }

  /** The same order with ties allowed. */
  function Busier(counts: map<string, nat>): (string, string) -> bool {
    (a: string, b: string) => a == b || Ahead(counts, a, b)
  }

  function Rank(keys: seq<string>, counts: map<string, nat>): seq<string> {
    SortBy(keys, Busier(counts))
  }

  lemma AheadTotal(counts: map<string, nat>, a: string, b: string)
    ensures Ahead(counts, a, b) || a == b || Ahead(counts, b, a)
    ensures !(Ahead(counts, a, b) && Ahead(counts, b, a)) && !Ahead(counts, a, a)
  {
    LexTotal(a, b);
    LexTotal(a, a);
  }

  lemma AheadTransitive(counts: map<string, nat>, a: string, b: string, c: string)
    requires Ahead(counts, a, b) && Ahead(counts, b, c)
    ensures Ahead(counts, a, c)
  {
    if CountIn(counts, a) == CountIn(counts, b) == CountIn(counts, c) { LexTransitive(a, b, c); }
  }

  lemma BusierIsOrder(counts: map<string, nat>)
    ensures Order(Busier(counts))
  {
    hide Ahead;
    forall a, b ensures Busier(counts)(a, b) || Busier(counts)(b, a) { AheadTotal(counts, a, b); }
    forall a, b, c | Busier(counts)(a, b) && Busier(counts)(b, c) ensures Busier(counts)(a, c) {
      if a != b && b != c { AheadTransitive(counts, a, b, c); }
    }
  }

  lemma RankRanks(keys: seq<string>, counts: map<string, nat>)
    requires Distinct(keys)
    ensures Ranked(Rank(keys, counts), counts) && multiset(Rank(keys, counts)) == multiset(keys)
  {
    hide SortBy, Order;
    BusierIsOrder(counts);
    SortIsSorted(keys, Busier(counts));
    SortKeepsDistinct(keys, Busier(counts));
  }

  lemma RankedDistinct(keys: seq<string>, counts: map<string, nat>)
    requires Ranked(keys, counts)
    ensures Distinct(keys)
  {
    hide Ahead;
    forall i, j | 0 <= i < j < |keys| ensures keys[i] != keys[j] { AheadTotal(counts, keys[i], keys[j]); }
  }

  // ----- the fold -----

  datatype Tally = Tally(
    keys: seq<string>,                        // routes in the order they came up
    counts: map<string, nat>,
    unforwarded: map<string, nat>,
    latencies: map<string, seq<real>>,
    all: seq<real>,
    ips: set<string>)

  /** The dictionaries hold, for every route, what its rows so far amount to. */
  ghost predicate Folded(t: Tally, rows: seq<Record>, routes: seq<string>) {
    && Distinct(t.keys) && Covers(t.keys, rows, routes)
    && (forall r :: r in t.keys <==> r in t.counts)
    && (forall r :: FiguresOf(t, rows, routes, r))
    && t.all == Times(rows) && t.ips == Addresses(rows)
  }

  ghost predicate FiguresOf(t: Tally, rows: seq<Record>, routes: seq<string>, r: string) {
    && (r in t.counts ==> Under(rows, routes, r) != [])
    && CountIn(t.counts, r) == |Under(rows, routes, r)|
    && CountIn(t.unforwarded, r) == Unforwarded(Under(rows, routes, r))
    && ListIn(t.latencies, r) == Times(Under(rows, routes, r))
  }

  /** One row into the dictionaries. */
  function Fold(t: Tally, record: Record, route: string): Tally {
    var keys := if route in t.counts then t.keys else t.keys + [route];
    var counts := t.counts[route := CountIn(t.counts, route) + 1];
    var elapsed := TotalTime(record);
    if elapsed.None? then
      Tally(keys, counts, t.unforwarded[route := CountIn(t.unforwarded, route) + 1], t.latencies, t.all, t.ips)
    else
      Tally(keys, counts, t.unforwarded,
            t.latencies[route := ListIn(t.latencies, route) + [elapsed.value]], t.all + [elapsed.value],
            t.ips + Named(HostOf(record.target)))
  }

  lemma CoversMore(keys: seq<string>, more: seq<string>, rows: seq<Record>, record: Record, routes: seq<string>)
    requires Covers(keys, rows, routes) && RouteOf(record.path, routes) in more && keys <= more
    ensures Covers(more, rows + [record], routes)
  {
    hide RouteOf;
    forall i | 0 <= i < |rows + [record]| ensures RouteOf((rows + [record])[i].path, routes) in more {
      if i < |rows| {
        assert RouteOf(rows[i].path, routes) in keys;
        PrefixHolds(keys, more, RouteOf(rows[i].path, routes));
      }
    }
  }

  lemma PrefixHolds(keys: seq<string>, more: seq<string>, k: string)
    requires keys <= more && k in keys
    ensures k in more
  {
    var i :| 0 <= i < |keys| && keys[i] == k;
    assert more[i] == k;
  }

  lemma FoldKeys(t: Tally, rows: seq<Record>, record: Record, routes: seq<string>)
    requires Folded(t, rows, routes)
    ensures var u := Fold(t, record, RouteOf(record.path, routes));
      Distinct(u.keys) && Covers(u.keys, rows + [record], routes) && forall r :: r in u.keys <==> r in u.counts
  {
    hide RouteOf, Under, Times, Unforwarded, TotalTime, Covers, FiguresOf, Addresses;
    var route := RouteOf(record.path, routes);
    var u := Fold(t, record, route);
    assert t.keys <= u.keys;
    assert route in u.keys;
    CoversMore(t.keys, u.keys, rows, record, routes);
    forall r ensures r in u.keys <==> r in u.counts {
      assert r in u.keys <==> r in t.keys || r == route;
    }
  }

  lemma FoldFigures(t: Tally, rows: seq<Record>, record: Record, routes: seq<string>, r: string)
    requires FiguresOf(t, rows, routes, r)
    ensures FiguresOf(Fold(t, record, RouteOf(record.path, routes)), rows + [record], routes, r)
  {
    hide RouteOf, Under, Times, Unforwarded;
    UnderMore(rows, record, routes, r);
    TimesNext(Under(rows, routes, r), record);
  }

  lemma FoldNext(t: Tally, rows: seq<Record>, record: Record, routes: seq<string>)
    requires Folded(t, rows, routes)
    ensures Folded(Fold(t, record, RouteOf(record.path, routes)), rows + [record], routes)
  {
    hide RouteOf, Under, Times, Unforwarded, Covers, Distinct, Fold, CountIn, ListIn, FiguresOf, TotalTime, Addresses;
    FoldKeys(t, rows, record, routes);
    forall r ensures FiguresOf(Fold(t, record, RouteOf(record.path, routes)), rows + [record], routes, r) {
      FoldFigures(t, rows, record, routes, r);
    }
    FoldAll(t, rows, record, RouteOf(record.path, routes), routes);
  }

  lemma FoldAll(t: Tally, rows: seq<Record>, record: Record, route: string, routes: seq<string>)
    requires t.all == Times(rows) && t.ips == Addresses(rows)
    ensures Fold(t, record, route).all == Times(rows + [record])
    ensures Fold(t, record, route).ips == Addresses(rows + [record])
  {
    hide Times, Addresses;
    TimesNext(rows, record);
    AddressesNext(rows, record);
  }

  lemma FoldStart(routes: seq<string>)
    ensures Folded(Tally([], map[], map[], map[], [], {}), [], routes)
  {
  }

  // ----- the report -----

  datatype RouteStats = RouteStats(route: string, count: nat, forwarded: nat, unforwarded: nat,
    p50: Option<real>, p95: Option<real>, p99: Option<real>, max: Option<real>)

  datatype Report = Report(rowsParsed: nat, rowsMalformed: nat, rowsInWindow: nat, forwardedRows: nat, unforwardedRows: nat,
    targets: seq<string>, routes: seq<RouteStats>, histogram: seq<nat>, healthy: seq<real>, healthyMinimum: Option<real>)

  function Minimum(values: seq<real>): (m: Option<real>)
    ensures m.None? <==> values == []
    ensures m.Some? ==> m.value in values && forall i :: 0 <= i < |values| ==> m.value <= values[i]
  {
    if values == [] then None
    else
      var m := Minimum(values[1..]);
      assert forall i :: 1 <= i < |values| ==> values[i] == values[1..][i - 1];
      if m.Some? && m.value < values[0] then m else Some(values[0])
  }

  function Largest(sorted: seq<real>): Option<real> {
    if sorted == [] then None else Some(sorted[|sorted| - 1])
  }

  /** The figures of one route, from its own rows. */
  function StatsOf(route: string, own: seq<Record>): RouteStats {
    var samples := Sort(Times(own));
    RouteStats(route, |own|, |samples|, Unforwarded(own),
      Percentile(samples, 0.5), Percentile(samples, 0.95), Percentile(samples, 0.99), Largest(samples))
  }

  /** Per route: the count splits, and the percentiles ascend to the maximum. */
  lemma StatsAreOrdered(route: string, own: seq<Record>)
    ensures var s := StatsOf(route, own);
      && s.count == s.forwarded + s.unforwarded
      && (s.forwarded == 0 <==> s.p50.None?)
      && (s.forwarded > 0 ==>
            s.p50.Some? && s.p95.Some? && s.p99.Some? && s.max.Some?
            && s.p50.value <= s.p95.value <= s.p99.value <= s.max.value)
  {
    hide Sort, Times, Unforwarded, Sorted, Percentile;
    RowsSplit(own);
    SamplesAreSorted(Times(own));
    var samples := Sort(Times(own));
    PercentileOfNone(0.5);
    if samples != [] {
      PercentileIsMonotone(samples, 0.5, 0.95);
      PercentileIsMonotone(samples, 0.95, 0.99);
    }
  }

  /**
   What the percentiles are: with `100 h + 1` latencies in order, the ones at `50 h`, `95 h` and
   `99 h`; the maximum is the greatest latency of the route's rows.
   */
  lemma {:induction false} StatsAre(route: string, own: seq<Record>, h: nat)
    requires h > 0 && |Times(own)| == 100 * h + 1
    ensures var s, sorted := StatsOf(route, own), Sort(Times(own));
      && |sorted| == 100 * h + 1
      && s.p50 == Some(sorted[50 * h]) && s.p95 == Some(sorted[95 * h]) && s.p99 == Some(sorted[99 * h])
      && s.max == Some(sorted[100 * h])
      && s.max.value in Times(own) && forall t :: t in Times(own) ==> t <= s.max.value
  {
    hide Sort, Times, Unforwarded, Percentile;
    SamplesAreSorted(Times(own));
    var sorted := Sort(Times(own));
    Hundredths(h, 50, 0.5);
    Hundredths(h, 95, 0.95);
    Hundredths(h, 99, 0.99);
    PercentileIs(sorted, 0.5, 50 * h, 0.0);
    PercentileIs(sorted, 0.95, 95 * h, 0.0);
    PercentileIs(sorted, 0.99, 99 * h, 0.0);
    assert sorted[100 * h] in multiset(sorted);
    forall t | t in Times(own) ensures t <= sorted[100 * h] {
      assert t in multiset(Times(own));
      assert t in sorted;
    }
  }

  lemma Hundredths(h: nat, k: nat, q: real)
    requires 100.0 * q == k as real
    ensures (100 * h) as real * q == (k * h) as real
  {
    assert (100 * h) as real * q == h as real * (100.0 * q);
  }

  lemma PercentileOfNone(q: real)
    requires 0.0 <= q <= 1.0
    ensures Percentile([], q) == None
  {
  }

  function Names(stats: seq<RouteStats>): seq<string> {
    seq(|stats|, i requires 0 <= i < |stats| => stats[i].route)
  }

  function FigureOf(f: Figure, s: RouteStats): nat {
    match f
    case All => s.count
    case Timed => s.forwarded
    case Missed => s.unforwarded
  }

  function SumStats(f: Figure, stats: seq<RouteStats>): nat {
    if stats == [] then 0 else SumStats(f, stats[..|stats| - 1]) + FigureOf(f, stats[|stats| - 1])
  }

  ghost predicate IsReport(rep: Report, rows: seq<Record>, routes: seq<string>) {
    && rep.rowsInWindow == |rows|
    && rep.forwardedRows == |Times(rows)| && rep.unforwardedRows == Unforwarded(rows)
    && (forall ip :: ip in rep.targets <==> ip in Addresses(rows)) && Alphabetical(rep.targets)
    && (forall i :: 0 <= i < |rep.routes| ==>
          && rep.routes[i] == StatsOf(rep.routes[i].route, Under(rows, routes, rep.routes[i].route))
          && rep.routes[i].count > 0)
    && Distinct(Names(rep.routes)) && Covers(Names(rep.routes), rows, routes)
    && Total(rep.histogram) == rep.forwardedRows
    && |rep.histogram| == |Edges()| + 1
    && (forall b :: 0 <= b < |rep.histogram| ==> rep.histogram[b] == InBucket(Sort(Times(rows)), Edges(), b))
  }

  lemma {:induction false} SumByName(f: Figure, stats: seq<RouteStats>, rows: seq<Record>, routes: seq<string>)
    requires forall i :: 0 <= i < |stats| ==> FigureOf(f, stats[i]) == Amount(f, Under(rows, routes, stats[i].route))
    ensures SumStats(f, stats) == Spread(f, rows, routes, Names(stats))
  {
    hide Under, Amount, FigureOf;
    if stats != [] {
      var n := |stats| - 1;
      SumByName(f, stats[..n], rows, routes);
      assert Names(stats)[..n] == Names(stats[..n]);
    }
  }

  lemma StatsCounts(route: string, own: seq<Record>)
    ensures var s := StatsOf(route, own);
      s.route == route && s.count == |own| && s.forwarded == |Times(own)| && s.unforwarded == Unforwarded(own)
  {
    hide Sort, Percentile, Largest;
    SamplesAreSorted(Times(own));
  }

  lemma StatsFigure(f: Figure, route: string, own: seq<Record>)
    ensures FigureOf(f, StatsOf(route, own)) == Amount(f, own)
  {
    hide StatsOf, Times, Unforwarded;
    StatsCounts(route, own);
  }

  /** Over any report: the routes' figures add up to the totals, and so does the histogram. */
  lemma ReportAddsUp(rep: Report, rows: seq<Record>, routes: seq<string>)
    requires IsReport(rep, rows, routes)
    ensures SumStats(All, rep.routes) == rep.rowsInWindow == rep.forwardedRows + rep.unforwardedRows
    ensures SumStats(Timed, rep.routes) == rep.forwardedRows == Total(rep.histogram)
    ensures SumStats(Missed, rep.routes) == rep.unforwardedRows
  {
    hide StatsOf, Under, Times, Unforwarded, SumStats, Spread, Distinct, Covers, Total, Names, FigureOf, Edges, Sort, InBucket;
    forall f: Figure ensures SumStats(f, rep.routes) == Amount(f, rows) {
      forall i | 0 <= i < |rep.routes|
        ensures FigureOf(f, rep.routes[i]) == Amount(f, Under(rows, routes, rep.routes[i].route))
      {
        StatsFigure(f, rep.routes[i].route, Under(rows, routes, rep.routes[i].route));
      }
      SumByName(f, rep.routes, rows, routes);
      RoutesPartitionRows(f, rows, routes, Names(rep.routes));
    }
    RowsSplit(rows);
    assert SumStats(All, rep.routes) == |rows|;
    assert SumStats(Timed, rep.routes) == |Times(rows)|;
    assert SumStats(Missed, rep.routes) == Unforwarded(rows);
  }

  /** Upper edges of the buckets, in seconds. */
  function Edges(): seq<real> {
    [0.05, 0.1, 0.25, 0.5, 1.0, 2.0, 5.0, 10.0, 30.0, 60.0]
  }

  ghost predicate InOrder(stats: seq<RouteStats>) {
    forall i, j :: 0 <= i < j < |stats| ==>
      stats[i].count > stats[j].count || (stats[i].count == stats[j].count && LexLess(stats[i].route, stats[j].route))
  }

  /** The loop over in-window rows. */
  method FoldRows(rows: seq<Record>, routes: seq<string>) returns (t: Tally)
    ensures Folded(t, rows, routes)
  {
    hide *;
    t := Tally([], map[], map[], map[], [], {});
    FoldStart(routes);
    var i := 0;
    assert rows[..0] == [];
    while i < |rows|
      invariant 0 <= i <= |rows| && Folded(t, rows[..i], routes)
    {
      var route := MatchRoute(rows[i].path, routes);
      FoldNext(t, rows[..i], rows[i], routes);
      assert rows[..i] + [rows[i]] == rows[..i + 1];
      t := Fold(t, rows[i], route);
      i := i + 1;
    }
    assert rows[..i] == rows;
  }

  lemma FoldedFigures(t: Tally, rows: seq<Record>, routes: seq<string>, r: string)
    requires Folded(t, rows, routes)
    ensures FiguresOf(t, rows, routes, r)
  {
    hide Distinct, Covers, FiguresOf, Times;
  }

  lemma StatsFrom(t: Tally, rows: seq<Record>, routes: seq<string>, r: string)
    requires Folded(t, rows, routes)
    ensures var samples := Sort(ListIn(t.latencies, r));
      RouteStats(r, CountIn(t.counts, r), |samples|, CountIn(t.unforwarded, r),
        Percentile(samples, 0.5), Percentile(samples, 0.95), Percentile(samples, 0.99), Largest(samples))
      == StatsOf(r, Under(rows, routes, r))
  {
    hide Folded, Sort, Percentile, Largest, Under, Times, Unforwarded, CountIn, ListIn;
    FoldedFigures(t, rows, routes, r);
  }

  /** The loop over routes. */
  method CollectStats(keys: seq<string>, t: Tally, ghost rows: seq<Record>, ghost routes: seq<string>) returns (stats: seq<RouteStats>)
    requires Folded(t, rows, routes)
    ensures |stats| == |keys|
    ensures forall i :: 0 <= i < |keys| ==> stats[i] == StatsOf(keys[i], Under(rows, routes, keys[i]))
  {
    hide *;
    stats := [];
    var i := 0;
    while i < |keys|
      invariant 0 <= i <= |keys| && |stats| == i
      invariant forall j :: 0 <= j < i ==> stats[j] == StatsOf(keys[j], Under(rows, routes, keys[j]))
    {
      var r := keys[i];
      var samples := Sort(ListIn(t.latencies, r));
      StatsFrom(t, rows, routes, r);
      stats := stats + [RouteStats(r, CountIn(t.counts, r), |samples|, CountIn(t.unforwarded, r),
        Percentile(samples, 0.5), Percentile(samples, 0.95), Percentile(samples, 0.99), Largest(samples))];
      i := i + 1;
    }
  }

  lemma EdgesAscend()
    ensures Sorted(Edges())
  {
  }

  /** The sum of a dictionary's values over the given keys. */
  function SumCounts(keys: seq<string>, m: map<string, nat>): nat {
    if keys == [] then 0 else SumCounts(keys[..|keys| - 1], m) + CountIn(m, keys[|keys| - 1])
  }

  lemma {:induction false} SumMissed(keys: seq<string>, t: Tally, rows: seq<Record>, routes: seq<string>)
    requires Folded(t, rows, routes)
    ensures SumCounts(keys, t.unforwarded) == Spread(Missed, rows, routes, keys)
    decreases |keys|
  {
    hide Folded, Under, Unforwarded, CountIn;
    if keys != [] {
      SumMissed(keys[..|keys| - 1], t, rows, routes);
      FoldedFigures(t, rows, routes, keys[|keys| - 1]);
    }
  }

  lemma FoldedParts(t: Tally, rows: seq<Record>, routes: seq<string>)
    requires Folded(t, rows, routes)
    ensures Distinct(t.keys) && Covers(t.keys, rows, routes) && t.all == Times(rows) && t.ips == Addresses(rows)
    ensures SumCounts(t.keys, t.unforwarded) == Unforwarded(rows)
  {
    hide RouteOf, Under, Times, Unforwarded, Covers, Distinct, CountIn, ListIn, SumCounts, Spread, FiguresOf;
    RoutesPartitionRows(Missed, rows, routes, t.keys);
    SumMissed(t.keys, t, rows, routes);
  }

  lemma ReorderedCovers(keys: seq<string>, more: seq<string>, rows: seq<Record>, routes: seq<string>)
    requires Covers(keys, rows, routes) && multiset(keys) == multiset(more)
    ensures Covers(more, rows, routes)
  {
    hide RouteOf;
    forall i | 0 <= i < |rows| ensures RouteOf(rows[i].path, routes) in more {
      assert RouteOf(rows[i].path, routes) in multiset(keys);
    }
  }

  lemma RankedStats(t: Tally, rows: seq<Record>, routes: seq<string>, keys: seq<string>, stats: seq<RouteStats>)
    requires Folded(t, rows, routes) && Ranked(keys, t.counts) && multiset(keys) == multiset(t.keys)
    requires |stats| == |keys| && forall i :: 0 <= i < |keys| ==> stats[i] == StatsOf(keys[i], Under(rows, routes, keys[i]))
    ensures InOrder(stats) && Names(stats) == keys
    ensures forall i :: 0 <= i < |stats| ==> stats[i].count > 0
  {
    hide RouteOf, Under, Times, Unforwarded, Covers, Distinct, StatsOf, LexLess, CountIn, ListIn;
    forall i | 0 <= i < |keys|
      ensures stats[i].route == keys[i] && stats[i].count == CountIn(t.counts, keys[i]) && stats[i].count > 0
    {
      StatsCounts(keys[i], Under(rows, routes, keys[i]));
      FoldedFigures(t, rows, routes, keys[i]);
      assert keys[i] in multiset(keys);
      assert keys[i] in t.keys;
    }
    assert Names(stats) == keys;
  }

  /** `summarize`. */
  method Summarize(records: seq<Record>, start: int, end: int, routes: seq<string>, malformed: nat, healthy: seq<real>)
    returns (rep: Report)
    ensures IsReport(rep, InWindow(records, start, end), routes)
    ensures InOrder(rep.routes)
    ensures rep.rowsParsed == |records| && rep.rowsMalformed == malformed && rep.healthy == healthy
    ensures rep.healthyMinimum == Minimum(healthy)
  {
    hide *;
    var rows := InWindow(records, start, end);
    var t := FoldRows(rows, routes);
    FoldedParts(t, rows, routes);
    var keys := Rank(t.keys, t.counts);
    RankRanks(t.keys, t.counts);
    RankedDistinct(keys, t.counts);
    ReorderedCovers(t.keys, keys, rows, routes);
    var stats := CollectStats(keys, t, rows, routes);
    RankedStats(t, rows, routes, keys, stats);
    EdgesAscend();
    var buckets := Histogram(Sort(t.all), Edges());
    SamplesAreSorted(t.all);
    var targets := InAlphabet(t.ips);
    rep := Report(|records|, malformed, |rows|, |t.all|, SumCounts(t.keys, t.unforwarded), targets, stats, buckets,
                  healthy, Minimum(healthy));
    IsReportIs(rep, rows, routes);
  }

  lemma IsReportIs(rep: Report, rows: seq<Record>, routes: seq<string>)
    requires rep.rowsInWindow == |rows|
    requires rep.forwardedRows == |Times(rows)| && rep.unforwardedRows == Unforwarded(rows)
    requires (forall ip :: ip in rep.targets <==> ip in Addresses(rows)) && Alphabetical(rep.targets)
    requires forall i :: 0 <= i < |rep.routes| ==>
      rep.routes[i] == StatsOf(Names(rep.routes)[i], Under(rows, routes, Names(rep.routes)[i])) && rep.routes[i].count > 0
    requires Distinct(Names(rep.routes)) && Covers(Names(rep.routes), rows, routes)
    requires Total(rep.histogram) == rep.forwardedRows
    requires |rep.histogram| == |Edges()| + 1
    requires forall b :: 0 <= b < |rep.histogram| ==> rep.histogram[b] == InBucket(Sort(Times(rows)), Edges(), b)
    ensures IsReport(rep, rows, routes)
  {
    hide Edges, Sort, InBucket, Times, Unforwarded, StatsOf, Under, Distinct, Covers, Total;
  }
}
