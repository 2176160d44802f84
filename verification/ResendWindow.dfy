/**
 The resend countdown: `auth/verification-status.js` over the rows of `auth/delivery-log.js`.

 Times are whole milliseconds. A history is newest first, in the order of the database's own
 sequence number. A row is stamped when its send is recorded and gets its sequence number when
 its insert lands, and inserts of one or several processes may land in any order, so creation
 times need not agree with the sequence.
 */
module ResendWindow {

  const RESEND_WINDOW_MS := 60 * 1000
  const RESEND_WINDOW_MAX := 3
  const RECENT_WINDOW_MS := 24 * 60 * 60 * 1000
  const RECENT_LIMIT := 20

  datatype Row = Row(email: string, kind: string, status: string, createdAt: int)

  /** The rows of a history created after `cutoff`. */
  function Younger(rows: seq<Row>, cutoff: int): (r: seq<Row>)
    ensures |r| <= |rows|
  {
    if rows == [] then []
    else (if rows[0].createdAt > cutoff then [rows[0]] else []) + Younger(rows[1..], cutoff)
  }

  function Take(rows: seq<Row>, limit: nat): seq<Row> {
    if |rows| <= limit then rows else rows[..limit]
  }

  /** All rows of one address and kind, newest first; the table is in insertion order. */
  function History(table: seq<Row>, email: string, kind: string): seq<Row> {
    if table == [] then []
    else
      var last := table[|table| - 1];
      (if last.email == email && last.kind == kind then [last] else [])
      + History(table[..|table| - 1], email, kind)
  }

  /** `recent()`: the 24-hour, limited view of the history. */
  function Recent(table: seq<Row>, email: string, kind: string, limit: nat, now: int): seq<Row> {
    Take(Younger(History(table, email, kind), now - RECENT_WINDOW_MS - 1), limit)
  }

  function InWindow(rows: seq<Row>, now: int): seq<Row> {
    Younger(rows, now - RESEND_WINDOW_MS)
  }

  /** The ceiling of `x / d`. */
  function CeilDiv(x: int, d: int): (q: int)
    requires d > 0
    ensures (q - 1) * d < x <= q * d
  {
    -((-x) / d)
  }

  /** Whole seconds until a row has left the window. */
  function Wait(row: Row, now: int): int {
    CeilDiv(row.createdAt + RESEND_WINDOW_MS - now, 1000)
  }

  /** `retryAfterSeconds`. */
  function RetryAfter(rows: seq<Row>, now: int): int {
    var live := InWindow(rows, now);
    if |live| < RESEND_WINDOW_MAX then 0
    else
      var wait := Wait(live[RESEND_WINDOW_MAX - 1], now);
      if wait < 1 then 1 else wait
  }

  /** After `v` seconds the limiter has a slot again. */
  predicate Sufficient(rows: seq<Row>, now: int, v: int) {
    |InWindow(rows, now + 1000 * v)| < RESEND_WINDOW_MAX
  }

  /** `w` is the wait a client should be told: enough, and nothing shorter is. */
  ghost predicate IsLeast(rows: seq<Row>, now: int, w: int) {
    w >= 0 && Sufficient(rows, now, w) && forall v :: 0 <= v < w ==> !Sufficient(rows, now, v)
  }

  // ----- filters, in any order -----

  lemma {:induction false} YoungerConcat(a: seq<Row>, b: seq<Row>, cutoff: int)
    ensures Younger(a + b, cutoff) == Younger(a, cutoff) + Younger(b, cutoff)
  {
    if a == [] {
      assert a + b == b;
    } else {
      assert (a + b)[1..] == a[1..] + b;
      YoungerConcat(a[1..], b, cutoff);
    }
  }

  /** Filtering twice is filtering by the later cutoff. */
  lemma {:induction false} YoungerAgain(rows: seq<Row>, early: int, late: int)
    requires early <= late
    ensures Younger(Younger(rows, early), late) == Younger(rows, late)
  {
    if rows != [] {
      YoungerAgain(rows[1..], early, late);
      var rest := Younger(rows[1..], early);
      if rows[0].createdAt > early {
        assert Younger(rows, early)[1..] == rest;
      } else {
        assert Younger(rows, early) == rest;
      }
    }
  }

  lemma {:induction false} NoneYounger(rows: seq<Row>, cutoff: int)
    requires forall k :: 0 <= k < |rows| ==> rows[k].createdAt <= cutoff
    ensures Younger(rows, cutoff) == []
  {
    if rows != [] { NoneYounger(rows[1..], cutoff); }
  }

  lemma {:induction false} AllYounger(rows: seq<Row>, cutoff: int)
    requires forall k :: 0 <= k < |rows| ==> rows[k].createdAt > cutoff
    ensures Younger(rows, cutoff) == rows
  {
    if rows != [] { AllYounger(rows[1..], cutoff); }
  }

  lemma {:induction false} YoungerIsYoung(rows: seq<Row>, cutoff: int)
    ensures forall k :: 0 <= k < |Younger(rows, cutoff)| ==> Younger(rows, cutoff)[k].createdAt > cutoff
  {
    if rows != [] { YoungerIsYoung(rows[1..], cutoff); }
  }

  /** What is seen of a prefix is a prefix of what is seen. */
  lemma YoungerOfPrefix(rows: seq<Row>, limit: nat, cutoff: int)
    ensures Younger(Take(rows, limit), cutoff) <= Younger(rows, cutoff)
  {
    hide Younger;
    if |rows| > limit {
      YoungerConcat(rows[..limit], rows[limit..], cutoff);
      assert rows == rows[..limit] + rows[limit..];
    }
  }

  // ----- what the queries return, in terms of the table -----

  /** The places of the table's rows of one address and kind that are younger than `cutoff`. */
  ghost function Places(table: seq<Row>, email: string, kind: string, cutoff: int): set<nat> {
    set i: nat | i < |table| && table[i].email == email && table[i].kind == kind && table[i].createdAt > cutoff
  }

  /** `rows` are the table's rows at the places of `at`, latest insertion first, and those are all of `want`. */
  ghost predicate Lists(rows: seq<Row>, table: seq<Row>, at: seq<nat>, want: set<nat>) {
    && |at| == |rows|
    && (forall i, j :: 0 <= i < j < |at| ==> at[i] > at[j])
    && (forall i :: 0 <= i < |at| ==> at[i] in want && at[i] < |table| && rows[i] == table[at[i]])
    && (forall n :: n in want ==> n in at)
  }

  lemma ListsNothing()
    ensures Lists([], [], [], {})
  {
  }

  lemma ListsNext(rows: seq<Row>, table: seq<Row>, at: seq<nat>, want: set<nat>, row: Row)
    requires Lists(rows, table, at, want)
    ensures Lists(rows, table + [row], at, want)
    ensures Lists([row] + rows, table + [row], [|table| as nat] + at, want + {|table|})
  {
    hide Lists;
    ListsLonger(rows, table, at, want, row);
    HeadLists(rows, table + [row], at, want, |table|);
  }

  lemma ListsLonger(rows: seq<Row>, table: seq<Row>, at: seq<nat>, want: set<nat>, row: Row)
    requires Lists(rows, table, at, want)
    ensures Lists(rows, table + [row], at, want) && forall n :: n in want ==> n < |table|
  {
  }

  /** A history is every row of that address and kind, once each, in reverse order of insertion. */
  lemma {:induction false} HistoryIs(table: seq<Row>, email: string, kind: string) returns (at: seq<nat>)
    ensures Lists(History(table, email, kind), table, at,
                  set i: nat | i < |table| && table[i].email == email && table[i].kind == kind)
    decreases |table|
  {
    hide Lists;
    var want := set i: nat | i < |table| && table[i].email == email && table[i].kind == kind;
    if table == [] {
      at := [];
      ListsNothing();
      assert want == {};
    } else {
      var n := |table| - 1;
      var front, last := table[..n], table[n];
      at := HistoryIs(front, email, kind);
      var was := set i: nat | i < |front| && front[i].email == email && front[i].kind == kind;
      assert table == front + [last];
      ListsNext(History(front, email, kind), front, at, was, last);
      if last.email == email && last.kind == kind {
        at := [n as nat] + at;
        assert want == was + {n};
      } else {
        assert want == was;
        assert [] + History(front, email, kind) == History(front, email, kind);
      }
    }
  }

  /** The places of `want` whose rows are younger than `cutoff`. */
  ghost function YoungOf(table: seq<Row>, want: set<nat>, cutoff: int): set<nat> {
    set n | n in want && n < |table| && table[n].createdAt > cutoff
  }

  lemma YoungOfMore(table: seq<Row>, want: set<nat>, cutoff: int, n: nat)
    requires n in want && n < |table|
    ensures YoungOf(table, want, cutoff)
         == if table[n].createdAt > cutoff then YoungOf(table, want - {n}, cutoff) + {n} else YoungOf(table, want - {n}, cutoff)
  {
  }

  /** Filtering a listing by age lists the younger places. */
  lemma {:induction false} YoungerLists(rows: seq<Row>, table: seq<Row>, at: seq<nat>, want: set<nat>, cutoff: int)
      returns (at': seq<nat>)
    requires Lists(rows, table, at, want)
    ensures Lists(Younger(rows, cutoff), table, at', YoungOf(table, want, cutoff))
    decreases |rows|
  {
    hide *;
    ListsSize(rows, table, at, want);
    if rows == [] {
      at' := [];
      YoungNothing(table, want, cutoff);
    } else {
      TailLists(rows, table, at, want);
      YoungOfMore(table, want, cutoff, at[0]);
      at' := YoungerLists(rows[1..], table, at[1..], want - {at[0]}, cutoff);
      YoungerHead(rows, cutoff);
      YoungOfWithin(table, want - {at[0]}, cutoff);
      if rows[0].createdAt > cutoff {
        HeadLists(Younger(rows[1..], cutoff), table, at', YoungOf(table, want - {at[0]}, cutoff), at[0]);
        at' := [at[0]] + at';
      }
    }
  }

  lemma ListsSize(rows: seq<Row>, table: seq<Row>, at: seq<nat>, want: set<nat>)
    requires Lists(rows, table, at, want)
    ensures |at| == |rows| && (rows != [] ==> at[0] in want && at[0] < |table|) && (rows == [] ==> want == {})
  {
  }

  lemma YoungNothing(table: seq<Row>, want: set<nat>, cutoff: int)
    requires want == {}
    ensures Lists(Younger([], cutoff), table, [], YoungOf(table, want, cutoff))
  {
  }

  lemma YoungOfWithin(table: seq<Row>, want: set<nat>, cutoff: int)
    ensures YoungOf(table, want, cutoff) <= want
  {
  }

  lemma YoungerHead(rows: seq<Row>, cutoff: int)
    requires rows != []
    ensures Younger(rows, cutoff)
         == if rows[0].createdAt > cutoff then [rows[0]] + Younger(rows[1..], cutoff) else Younger(rows[1..], cutoff)
  {
  }

  lemma TailLists(rows: seq<Row>, table: seq<Row>, at: seq<nat>, want: set<nat>)
    requires Lists(rows, table, at, want) && rows != []
    ensures Lists(rows[1..], table, at[1..], want - {at[0]}) && rows[0] == table[at[0]] && at[0] in want
    ensures forall n :: n in want - {at[0]} ==> n < at[0]
  {
    forall n | n in want - {at[0]} ensures n < at[0] && n in at[1..] {
      assert n in at;
      var i :| 0 <= i < |at| && at[i] == n;
      assert at[1..][i - 1] == n;
    }
  }

  lemma HeadLists(rows: seq<Row>, table: seq<Row>, at: seq<nat>, want: set<nat>, n: nat)
    requires Lists(rows, table, at, want) && n < |table| && forall m :: m in want ==> m < n
    ensures Lists([table[n]] + rows, table, [n] + at, want + {n})
  {
    var at', rows' := [n] + at, [table[n]] + rows;
    assert at'[0] == n;
    forall i | 0 < i < |at'| ensures at'[i] in want && at'[i] < n && rows'[i] == table[at'[i]] {
      assert at'[i] == at[i - 1] && rows'[i] == rows[i - 1];
    }
    forall i, j | 0 <= i < j < |at'| ensures at'[i] > at'[j] {
      if i > 0 { assert at'[i] == at[i - 1] && at'[j] == at[j - 1]; }
    }
    forall m | m in want ensures m in at' { assert m in at; }
  }

  /** What is listed is as many rows as there are places. */
  lemma {:induction false} ListedCount(rows: seq<Row>, table: seq<Row>, at: seq<nat>, want: set<nat>)
    requires Lists(rows, table, at, want)
    ensures |rows| == |want|
    decreases |rows|
  {
    if rows == [] {
      assert want == {};
    } else {
      TailLists(rows, table, at, want);
      ListedCount(rows[1..], table, at[1..], want - {at[0]});
    }
  }

  /** The rows of a history younger than a cutoff, as places of the table. */
  lemma {:induction false} YoungPlaces(table: seq<Row>, email: string, kind: string, cutoff: int) returns (at: seq<nat>)
    ensures Lists(Younger(History(table, email, kind), cutoff), table, at, Places(table, email, kind, cutoff))
    ensures |Younger(History(table, email, kind), cutoff)| == |Places(table, email, kind, cutoff)|
  {
    hide Lists, Younger, History;
    var want := set i: nat | i < |table| && table[i].email == email && table[i].kind == kind;
    var all := HistoryIs(table, email, kind);
    at := YoungerLists(History(table, email, kind), table, all, want, cutoff);
    assert YoungOf(table, want, cutoff) == Places(table, email, kind, cutoff);
    ListedCount(Younger(History(table, email, kind), cutoff), table, at, Places(table, email, kind, cutoff));
  }

  /** `recent` is the first `limit` rows, latest first, of that address and kind from the last 24 hours. */
  lemma {:induction false} RecentIs(table: seq<Row>, email: string, kind: string, limit: nat, now: int)
      returns (at: seq<nat>, day: seq<Row>)
    ensures Lists(day, table, at, Places(table, email, kind, now - 86400000 - 1))
    ensures Recent(table, email, kind, limit, now) <= day
    ensures |Recent(table, email, kind, limit, now)| == if |day| <= limit then |day| else limit
  {
    hide Lists, Younger, History;
    day := Younger(History(table, email, kind), now - RECENT_WINDOW_MS - 1);
    at := YoungPlaces(table, email, kind, now - RECENT_WINDOW_MS - 1);
  }

  /** After `v` seconds fewer than three rows of that address and kind are left in the minute. */
  ghost predicate Open(table: seq<Row>, email: string, kind: string, now: int, v: int) {
    |Places(table, email, kind, now + 1000 * v - 60000)| < 3
  }

  lemma OpenIsSufficient(table: seq<Row>, email: string, kind: string, now: int, v: int)
    ensures Open(table, email, kind, now, v) <==> Sufficient(History(table, email, kind), now, v)
  {
    hide Younger, History, Places, Lists;
    var at := YoungPlaces(table, email, kind, now + 1000 * v - 60000);
  }

  /** Off by at most `m` seconds: open `m` seconds after `w`, and at no time before `m` seconds short of it. */
  ghost predicate OpensAbout(table: seq<Row>, email: string, kind: string, now: int, w: int, m: int) {
    && w >= 0 && Open(table, email, kind, now, w + m)
    && forall v :: 0 <= v < w - m ==> !Open(table, email, kind, now, v)
  }

  lemma CloseIsAbout(table: seq<Row>, email: string, kind: string, now: int, w: int, m: int)
    ensures OpensAbout(table, email, kind, now, w, m) <==> Close(History(table, email, kind), now, w, m)
  {
    hide Open, Sufficient, History;
    forall v ensures Open(table, email, kind, now, v) <==> Sufficient(History(table, email, kind), now, v) {
      OpenIsSufficient(table, email, kind, now, v);
    }
  }

  lemma LeastIsAbout(table: seq<Row>, email: string, kind: string, now: int, w: int)
    ensures OpensAbout(table, email, kind, now, w, 0) <==> IsLeast(History(table, email, kind), now, w)
  {
    hide Open, Sufficient, History;
    CloseIsAbout(table, email, kind, now, w, 0);
  }

  /** No row of that address and kind was created more than `s` before one inserted ahead of it. */
  ghost predicate InStep(table: seq<Row>, email: string, kind: string, s: int) {
    forall a, b :: 0 <= a < b < |table| && table[a].email == table[b].email == email
        && table[a].kind == table[b].kind == kind
      ==> table[a].createdAt - table[b].createdAt <= s
  }

  /** The disorder of a history is the least bound on how its rows are out of step in the table. */
  lemma {:induction false} DisorderIs(table: seq<Row>, email: string, kind: string, s: nat)
    ensures InStep(table, email, kind, s) <==> Disorder(History(table, email, kind)) <= s
  {
    hide History, Disorder;
    var rows := History(table, email, kind);
    var at := HistoryIs(table, email, kind);
    ListsInStep(rows, table, at, email, kind, s);
    DisorderBounds(rows);
    if Disorder(rows) <= s { WithinMore(rows, Disorder(rows), s); }
    if Within(rows, s) { DisorderIsLeast(rows, s); }
  }

  lemma WithinMore(rows: seq<Row>, s: int, s': int)
    requires Within(rows, s) && s <= s'
    ensures Within(rows, s')
  {
  }

  lemma ListsInStep(rows: seq<Row>, table: seq<Row>, at: seq<nat>, email: string, kind: string, s: int)
    requires Lists(rows, table, at, set i: nat | i < |table| && table[i].email == email && table[i].kind == kind)
    ensures InStep(table, email, kind, s) <==> Within(rows, s)
  {
    if InStep(table, email, kind, s) {
      forall a, b | 0 <= a < b < |rows| ensures rows[b].createdAt - rows[a].createdAt <= s {
        assert at[b] < at[a];
      }
    }
    if Within(rows, s) {
      var want := set i: nat | i < |table| && table[i].email == email && table[i].kind == kind;
      forall a, b | 0 <= a < b < |table| && table[a].email == table[b].email == email
          && table[a].kind == table[b].kind == kind
        ensures table[a].createdAt - table[b].createdAt <= s
      {
        assert a in want && b in want;
        assert a in at && b in at;
        var i :| 0 <= i < |at| && at[i] == b;
        var j :| 0 <= j < |at| && at[j] == a;
        assert i < j;
      }
    }
  }

  // ----- exactly when the wait is right -----

  /** How many rows have a wait of more than `v` seconds. */
  function Longer(rows: seq<Row>, now: int, v: int): nat {
    if rows == [] then 0 else (if Wait(rows[0], now) > v then 1 else 0) + Longer(rows[1..], now, v)
  }

  lemma WaitExceeds(row: Row, now: int, v: int)
    ensures Wait(row, now) > v <==> row.createdAt > now + 1000 * v - RESEND_WINDOW_MS
  {
  }

  /** The rows still in the window after `v` seconds are those that wait longer. */
  lemma {:induction false} LongerIsWindow(rows: seq<Row>, now: int, v: int)
    ensures |InWindow(rows, now + 1000 * v)| == Longer(rows, now, v)
  {
    hide Wait;
    if rows != [] {
      WaitExceeds(rows[0], now, v);
      LongerIsWindow(rows[1..], now, v);
    }
  }

  lemma {:induction false} LongerShrinks(rows: seq<Row>, now: int, v: int, w: int)
    requires v <= w
    ensures Longer(rows, now, w) <= Longer(rows, now, v)
  {
    hide Wait;
    if rows != [] { LongerShrinks(rows[1..], now, v, w); }
  }

  lemma LiveOnly(rows: seq<Row>, now: int, v: int)
    requires v >= 0
    ensures Sufficient(rows, now, v) <==> Longer(InWindow(rows, now), now, v) < RESEND_WINDOW_MAX
  {
    hide Younger, Longer;
    YoungerAgain(rows, now - RESEND_WINDOW_MS, now + 1000 * v - RESEND_WINDOW_MS);
    LongerIsWindow(InWindow(rows, now), now, v);
  }

  lemma LiveWaits(rows: seq<Row>, now: int, k: nat)
    requires k < |InWindow(rows, now)|
    ensures Wait(InWindow(rows, now)[k], now) >= 1
  {
    hide Wait, Younger;
    YoungerIsYoung(rows, now - RESEND_WINDOW_MS);
    WaitExceeds(InWindow(rows, now)[k], now, 0);
  }

  /** Where the answer turns: enough rows wait `w` or more, too few wait longer. */
  lemma LeastExactly(rows: seq<Row>, now: int, w: int)
    requires w >= 1
    ensures var live := InWindow(rows, now);
            IsLeast(rows, now, w) <==>
              Longer(live, now, w) < RESEND_WINDOW_MAX && Longer(live, now, w - 1) >= RESEND_WINDOW_MAX
  {
    hide InWindow, Longer, Sufficient;
    var live := InWindow(rows, now);
    LiveOnly(rows, now, w);
    LiveOnly(rows, now, w - 1);
    forall v | 0 <= v < w
      ensures Longer(live, now, v) >= Longer(live, now, w - 1)
      ensures Sufficient(rows, now, v) <==> Longer(live, now, v) < RESEND_WINDOW_MAX
    {
      LongerShrinks(live, now, v, w - 1);
      LiveOnly(rows, now, v);
    }
  }

  /**
   For every history, in any order: the wait quoted is the least sufficient one if and only if
   the window is not full, or fewer than the maximum live rows wait longer than the third newest
   and at least the maximum wait as long.
   */
  lemma WaitIsLeastExactly(rows: seq<Row>, now: int)
    ensures var live := InWindow(rows, now);
            IsLeast(rows, now, RetryAfter(rows, now)) <==>
              || |live| < RESEND_WINDOW_MAX
              || (var w := Wait(live[RESEND_WINDOW_MAX - 1], now);
                  Longer(live, now, w) < RESEND_WINDOW_MAX && Longer(live, now, w - 1) >= RESEND_WINDOW_MAX)
  {
    hide InWindow, Longer, Wait;
    var live := InWindow(rows, now);
    if |live| >= RESEND_WINDOW_MAX {
      LiveWaits(rows, now, RESEND_WINDOW_MAX - 1);
      LeastExactly(rows, now, Wait(live[RESEND_WINDOW_MAX - 1], now));
    }
  }

  /** The day's rows show every live row. */
  lemma DayShowsLive(rows: seq<Row>, now: int)
    ensures InWindow(Younger(rows, now - RECENT_WINDOW_MS - 1), now) == InWindow(rows, now)
  {
    hide Younger;
    YoungerAgain(rows, now - RECENT_WINDOW_MS - 1, now - RESEND_WINDOW_MS);
  }

  /** The query's live rows are the newest of the live rows: a limit can only hide the rest. */
  lemma QueryShowsPrefix(table: seq<Row>, email: string, kind: string, limit: nat, now: int)
    ensures InWindow(Recent(table, email, kind, limit, now), now) <= InWindow(History(table, email, kind), now)
  {
    hide Younger, History;
    var rows := History(table, email, kind);
    DayShowsLive(rows, now);
    YoungerOfPrefix(Younger(rows, now - RECENT_WINDOW_MS - 1), limit, now - RESEND_WINDOW_MS);
  }

  /**
   The limited 24-hour query answers as the whole log would, in any order and for any limit, if
   and only if it shows a full window whenever there is one.
   */
  lemma TruncatedViewExactly(table: seq<Row>, email: string, kind: string, limit: nat, now: int)
    ensures RetryAfter(Recent(table, email, kind, limit, now), now) == RetryAfter(History(table, email, kind), now)
       <==> || |InWindow(History(table, email, kind), now)| < RESEND_WINDOW_MAX
            || |InWindow(Recent(table, email, kind, limit, now), now)| >= RESEND_WINDOW_MAX
  {
    hide InWindow, Wait, Recent, History;
    QueryShowsPrefix(table, email, kind, limit, now);
  }

  /** The endpoint's answer against the untruncated log, in any order: when it is the least sufficient wait. */
  lemma QuoteIsLeastExactly(table: seq<Row>, email: string, kind: string, limit: nat, now: int)
    ensures var rows, seen := History(table, email, kind), Recent(table, email, kind, limit, now);
            var live := InWindow(rows, now);
            IsLeast(rows, now, RetryAfter(seen, now)) <==>
              || |live| < RESEND_WINDOW_MAX
              || (&& |InWindow(seen, now)| >= RESEND_WINDOW_MAX
                  && var w := Wait(live[RESEND_WINDOW_MAX - 1], now);
                     Longer(live, now, w) < RESEND_WINDOW_MAX && Longer(live, now, w - 1) >= RESEND_WINDOW_MAX)
  {
    hide InWindow, Longer, Wait, Recent, History, IsLeast, RetryAfter;
    TruncatedViewExactly(table, email, kind, limit, now);
    WaitIsLeastExactly(History(table, email, kind), now);
    if |InWindow(History(table, email, kind), now)| >= RESEND_WINDOW_MAX
       && |InWindow(Recent(table, email, kind, limit, now), now)| < RESEND_WINDOW_MAX {
      ZeroIsNotLeast(table, email, kind, limit, now);
    }
  }

  /** A query that shows too few rows answers zero, and with a full window zero is not enough. */
  lemma ZeroIsNotLeast(table: seq<Row>, email: string, kind: string, limit: nat, now: int)
    requires |InWindow(History(table, email, kind), now)| >= RESEND_WINDOW_MAX
    requires |InWindow(Recent(table, email, kind, limit, now), now)| < RESEND_WINDOW_MAX
    ensures !IsLeast(History(table, email, kind), now, RetryAfter(Recent(table, email, kind, limit, now), now))
  {
    hide InWindow, Wait, Recent, History;
  }

  // ----- how far off it can be -----

  /** No row was created more than `s` before a row that precedes it in the sequence. */
  ghost predicate Within(rows: seq<Row>, s: int) {
    forall a, b :: 0 <= a < b < |rows| ==> rows[b].createdAt - rows[a].createdAt <= s
  }

  /** The latest creation time among the rows, or `floor` if that is later. */
  function Latest(rows: seq<Row>, floor: int): (m: int)
    ensures m >= floor && forall k :: 0 <= k < |rows| ==> rows[k].createdAt <= m
    ensures m == floor || exists k :: 0 <= k < |rows| && rows[k].createdAt == m
  {
    if rows == [] then floor
    else
      var m := Latest(rows[1..], floor);
      assert forall k :: 1 <= k < |rows| ==> rows[k] == rows[1..][k - 1];
      if rows[0].createdAt > m then rows[0].createdAt else m
  }

  /** By how much creation times disagree with the sequence order; zero when they agree. */
  function Disorder(rows: seq<Row>): nat {
    if rows == [] then 0
    else
      var rest, here := Disorder(rows[1..]), Latest(rows[1..], rows[0].createdAt) - rows[0].createdAt;
      if here > rest then here else rest
  }

  lemma {:induction false} DisorderBounds(rows: seq<Row>)
    ensures Within(rows, Disorder(rows))
  {
    if rows != [] {
      DisorderBounds(rows[1..]);
      forall a, b | 0 <= a < b < |rows| ensures rows[b].createdAt - rows[a].createdAt <= Disorder(rows) {
        assert rows[b] == rows[1..][b - 1];
        if a > 0 { assert rows[a] == rows[1..][a - 1]; }
      }
    }
  }

  lemma {:induction false} DisorderIsLeast(rows: seq<Row>, s: nat)
    requires Within(rows, s)
    ensures Disorder(rows) <= s
  {
    if rows != [] {
      assert Within(rows[1..], s);
      DisorderIsLeast(rows[1..], s);
    }
  }

  lemma {:induction false} YoungerKeeps(rows: seq<Row>, cutoff: int, row: Row)
    requires row in Younger(rows, cutoff)
    ensures row in rows
  {
    if !(rows[0].createdAt > cutoff && row == rows[0]) {
      YoungerKeeps(rows[1..], cutoff, row);
    }
  }

  lemma {:induction false} YoungerWithin(rows: seq<Row>, cutoff: int, s: int)
    requires Within(rows, s)
    ensures Within(Younger(rows, cutoff), s)
  {
    if rows != [] {
      assert Within(rows[1..], s);
      YoungerWithin(rows[1..], cutoff, s);
      var rest := Younger(rows[1..], cutoff);
      forall k | 0 <= k < |rest| ensures rest[k].createdAt - rows[0].createdAt <= s {
        YoungerKeeps(rows[1..], cutoff, rest[k]);
        var j :| 0 <= j < |rows[1..]| && rows[1..][j] == rest[k];
        assert rows[j + 1] == rest[k];
      }
    }
  }

  /** If everything past the first `k` rows has left, at most `k` are left. */
  lemma FewLeft(rows: seq<Row>, k: nat, cutoff: int)
    requires k <= |rows| && forall j :: k <= j < |rows| ==> rows[j].createdAt <= cutoff
    ensures |Younger(rows, cutoff)| <= k
  {
    hide Younger;
    YoungerConcat(rows[..k], rows[k..], cutoff);
    assert rows == rows[..k] + rows[k..];
    NoneYounger(rows[k..], cutoff);
    assert |Younger(rows[..k], cutoff)| <= k;
  }

  lemma ManyLeft(rows: seq<Row>, k: nat, cutoff: int)
    requires k <= |rows| && forall j :: 0 <= j < k ==> rows[j].createdAt > cutoff
    ensures |Younger(rows, cutoff)| >= k
  {
    hide Younger;
    YoungerConcat(rows[..k], rows[k..], cutoff);
    assert rows == rows[..k] + rows[k..];
    AllYounger(rows[..k], cutoff);
  }

  lemma FullWindowSuffices(rows: seq<Row>, now: int, s: nat, after: int)
    requires Within(rows, s) && |InWindow(rows, now)| >= RESEND_WINDOW_MAX
    requires after >= now - RESEND_WINDOW_MS && InWindow(rows, now)[RESEND_WINDOW_MAX - 1].createdAt + s <= after
    ensures |Younger(rows, after)| < RESEND_WINDOW_MAX
  {
    var live, third := InWindow(rows, now), RESEND_WINDOW_MAX - 1;
    YoungerWithin(rows, now - RESEND_WINDOW_MS, s);
    YoungerAgain(rows, now - RESEND_WINDOW_MS, after);
    hide Younger;
    FewLeft(live, third, after);
  }

  lemma FullWindowNeeds(rows: seq<Row>, now: int, s: nat, cutoff: int)
    requires Within(rows, s) && |InWindow(rows, now)| >= RESEND_WINDOW_MAX
    requires cutoff >= now - RESEND_WINDOW_MS && InWindow(rows, now)[RESEND_WINDOW_MAX - 1].createdAt - s > cutoff
    ensures |Younger(rows, cutoff)| >= RESEND_WINDOW_MAX
  {
    var live, third := InWindow(rows, now), RESEND_WINDOW_MAX - 1;
    YoungerWithin(rows, now - RESEND_WINDOW_MS, s);
    YoungerAgain(rows, now - RESEND_WINDOW_MS, cutoff);
    hide Younger;
    ManyLeft(live, RESEND_WINDOW_MAX, cutoff);
  }

  /** From a full window, the third newest row tells the wait to within the disorder. */
  lemma FullWindowIsClose(rows: seq<Row>, now: int, s: nat, m: nat)
    requires Within(rows, s) && s <= 1000 * m && |InWindow(rows, now)| >= RESEND_WINDOW_MAX
    ensures var w := Wait(InWindow(rows, now)[RESEND_WINDOW_MAX - 1], now);
            Sufficient(rows, now, w + m) && forall v :: 0 <= v < w - m ==> !Sufficient(rows, now, v)
  {
    hide Younger, Within;
    var third := InWindow(rows, now)[RESEND_WINDOW_MAX - 1];
    var w := Wait(third, now);
    LiveWaits(rows, now, RESEND_WINDOW_MAX - 1);
    FullWindowSuffices(rows, now, s, now + 1000 * (w + m) - RESEND_WINDOW_MS);
    forall v | 0 <= v < w - m ensures !Sufficient(rows, now, v) {
      FullWindowNeeds(rows, now, s, now + 1000 * v - RESEND_WINDOW_MS);
    }
  }

  /** A limit that hides live rows hides only rows about to leave. */
  lemma HiddenLeaveSoon(rows: seq<Row>, limit: nat, now: int, s: nat, m: nat)
    requires Within(rows, s) && s <= 1000 * m && limit >= RESEND_WINDOW_MAX
    requires |InWindow(Take(rows, limit), now)| < RESEND_WINDOW_MAX
    ensures Sufficient(rows, now, m)
  {
    var cutoff := now - RESEND_WINDOW_MS;
    var after := now + 1000 * m - RESEND_WINDOW_MS;
    var seen, rest := Take(rows, limit), if |rows| <= limit then [] else rows[limit..];
    assert rows == seen + rest;
    YoungerConcat(seen, rest, after);
    YoungerAgain(seen, cutoff, after);
    assert |Younger(seen, after)| < RESEND_WINDOW_MAX;
    if |rows| > limit {
      var gone := OneGone(seen, cutoff);
      hide Younger;
      forall k | 0 <= k < |rest| ensures rest[k].createdAt <= after {
        assert rest[k] == rows[limit + k] && seen[gone] == rows[gone];
      }
      NoneYounger(rest, after);
    }
  }

  /** If not all rows are live, some row is not. */
  lemma OneGone(rows: seq<Row>, cutoff: int) returns (k: nat)
    requires |Younger(rows, cutoff)| < |rows|
    ensures k < |rows| && rows[k].createdAt <= cutoff
  {
    if forall j :: 0 <= j < |rows| ==> rows[j].createdAt > cutoff {
      AllYounger(rows, cutoff);
      assert false;
    }
    k :| 0 <= k < |rows| && rows[k].createdAt <= cutoff;
  }

  /** Off by at most `m` whole seconds, either way. */
  ghost predicate Close(rows: seq<Row>, now: int, w: int, m: int) {
    w >= 0 && Sufficient(rows, now, w + m) && forall v :: 0 <= v < w - m ==> !Sufficient(rows, now, v)
  }

  lemma LaterIsSufficient(rows: seq<Row>, now: int, m: nat)
    requires |InWindow(rows, now)| < RESEND_WINDOW_MAX
    ensures Sufficient(rows, now, m)
  {
    YoungerAgain(rows, now - RESEND_WINDOW_MS, now + 1000 * m - RESEND_WINDOW_MS);
  }

  lemma QuoteIsWithin(table: seq<Row>, email: string, kind: string, limit: nat, now: int, s: nat, m: nat)
    requires limit >= RESEND_WINDOW_MAX && Within(History(table, email, kind), s) && s <= 1000 * m
    ensures Close(History(table, email, kind), now, RetryAfter(Recent(table, email, kind, limit, now), now), m)
  {
    hide History, Younger, Wait, Within, Sufficient;
    var rows := History(table, email, kind);
    var day := Younger(rows, now - RECENT_WINDOW_MS - 1);
    var seen := Take(day, limit);
    QueryShowsPrefix(table, email, kind, limit, now);
    if |InWindow(rows, now)| < RESEND_WINDOW_MAX {
      LaterIsSufficient(rows, now, m);
    } else if |InWindow(seen, now)| < RESEND_WINDOW_MAX {
      YoungerWithin(rows, now - RECENT_WINDOW_MS - 1, s);
      HiddenLeaveSoon(day, limit, now, s, m);
      DaySuffices(rows, now, m);
    } else {
      FullWindowIsClose(rows, now, s, m);
      LiveWaits(rows, now, RESEND_WINDOW_MAX - 1);
    }
  }

  lemma DaySuffices(rows: seq<Row>, now: int, m: nat)
    ensures Sufficient(Younger(rows, now - RECENT_WINDOW_MS - 1), now, m) <==> Sufficient(rows, now, m)
  {
    YoungerAgain(rows, now - RECENT_WINDOW_MS - 1, now + 1000 * m - RESEND_WINDOW_MS);
  }

  /**
   Whatever the log holds, in whatever order: the wait quoted from the limited query is off the
   least sufficient one by no more whole seconds than creation times disagree with the sequence.
   */
  lemma QuoteIsClose(table: seq<Row>, email: string, kind: string, now: int)
    ensures var rows := History(table, email, kind);
            Close(rows, now, RetryAfter(Recent(table, email, kind, RECENT_LIMIT, now), now), CeilDiv(Disorder(rows), 1000))
  {
    hide Close, Disorder, History, Recent, RetryAfter, Within;
    var rows := History(table, email, kind);
    DisorderBounds(rows);
    QuoteIsWithin(table, email, kind, RECENT_LIMIT, now, Disorder(rows), CeilDiv(Disorder(rows), 1000));
  }

  /** The same over the table itself, for any bound on how its rows are out of step. */
  lemma QuoteIsAbout(table: seq<Row>, email: string, kind: string, now: int, s: nat)
    requires InStep(table, email, kind, s)
    ensures OpensAbout(table, email, kind, now, RetryAfter(Recent(table, email, kind, RECENT_LIMIT, now), now),
                       CeilDiv(s, 1000))
  {
    hide Close, Disorder, History, Recent, RetryAfter, Within, InStep, OpensAbout;
    var rows := History(table, email, kind);
    DisorderIs(table, email, kind, s);
    DisorderBounds(rows);
    WithinMore(rows, Disorder(rows), s);
    QuoteIsWithin(table, email, kind, RECENT_LIMIT, now, s, CeilDiv(s, 1000));
    CloseIsAbout(table, email, kind, now, RetryAfter(Recent(table, email, kind, RECENT_LIMIT, now), now),
                 CeilDiv(s, 1000));
  }

  /** Newer rows are not older: `createdAt` agrees with the sequence order. */
  ghost predicate Descending(rows: seq<Row>) {
    forall a, b :: 0 <= a < b < |rows| ==> rows[a].createdAt >= rows[b].createdAt
  }

  /** In time order the third newest row is the third youngest: its wait is the least sufficient one. */
  lemma RetryAfterIsLeast(rows: seq<Row>, now: int)
    requires Descending(rows)
    ensures IsLeast(rows, now, RetryAfter(rows, now))
  {
    hide InWindow, Wait;
    if |InWindow(rows, now)| >= RESEND_WINDOW_MAX {
      LiveWaits(rows, now, RESEND_WINDOW_MAX - 1);
      FullWindowIsClose(rows, now, 0, 0);
    }
  }

  /** In time order the limited 24-hour query answers as the whole log would. */
  lemma TruncatedViewIsExact(table: seq<Row>, email: string, kind: string, limit: nat, now: int)
    requires Descending(History(table, email, kind)) && limit >= RESEND_WINDOW_MAX
    ensures RetryAfter(Recent(table, email, kind, limit, now), now) == RetryAfter(History(table, email, kind), now)
  {
    hide History, Younger, RetryAfter;
    var rows := History(table, email, kind);
    TruncatedViewExactly(table, email, kind, limit, now);
    if |InWindow(Recent(table, email, kind, limit, now), now)| < RESEND_WINDOW_MAX {
      YoungerWithin(rows, now - RECENT_WINDOW_MS - 1, 0);
      HiddenLeaveSoon(Younger(rows, now - RECENT_WINDOW_MS - 1), limit, now, 0, 0);
      DayShowsLive(rows, now);
    }
  }

  /** In time order there is no disorder, and the wait quoted is the least sufficient one. */
  lemma QuotedWaitIsLeast(table: seq<Row>, email: string, kind: string, now: int)
    requires Descending(History(table, email, kind))
    ensures Disorder(History(table, email, kind)) == 0
    ensures IsLeast(History(table, email, kind), now, RetryAfter(Recent(table, email, kind, RECENT_LIMIT, now), now))
  {
    hide Disorder, History, Recent, RetryAfter, Sufficient;
    var rows := History(table, email, kind);
    DisorderIsLeast(rows, 0);
    QuoteIsWithin(table, email, kind, RECENT_LIMIT, now, 0, 0);
  }

  // ----- any number of processes writing the log -----

  type Process = nat
  type Ticket = nat

  datatype State = State(
    clock: int,                      // the true time
    issued: map<Process, int>,       // each process's `lastIssuedAt`
    inFlight: map<Ticket, Row>,      // stamped, insert not yet landed
    table: seq<Row>)                 // in sequence order

  datatype Action =
    | Tick(time: int)
    | Issue(process: Process, reading: int, ticket: Ticket, email: string, kind: string, status: string)
    | Land(ticket: Ticket)           // the insert commits and gets the next sequence number
    | Fail(ticket: Ticket)           // the insert is refused; the stamp stays spent

  function LastIssued(s: State, p: Process): int {
    if p in s.issued then s.issued[p] else 0
  }

  /** `nextCreatedAt` of a process, on its own reading of the clock. */
  function NextStamp(last: int, reading: int): (at: int)
    ensures at >= reading && at > last && (at == reading || at == last + 1)
  {
    if reading > last + 1 then reading else last + 1
  }

  predicate Enabled(s: State, a: Action) {
    match a
    case Tick(time) => time >= s.clock
    case Issue(_, _, ticket, email, kind, status) => ticket !in s.inFlight && email != "" && kind != "" && status != ""
    case Land(ticket) => ticket in s.inFlight
    case Fail(ticket) => ticket in s.inFlight
  }

  function Do(s: State, a: Action): State
    requires Enabled(s, a)
  {
    match a
    case Tick(time) => s.(clock := time)
    case Issue(p, reading, ticket, email, kind, status) =>
      var at := NextStamp(LastIssued(s, p), reading);
      s.(issued := s.issued[p := at], inFlight := s.inFlight[ticket := Row(email, kind, status, at)])
    case Land(ticket) => s.(inFlight := s.inFlight - {ticket}, table := s.table + [s.inFlight[ticket]])
    case Fail(ticket) => s.(inFlight := s.inFlight - {ticket})
  }

  ghost predicate Init(s: State) {
    (forall p :: p in s.issued ==> s.issued[p] == 0) && s.inFlight == map[] && s.table == []
  }

  ghost predicate Trace(states: seq<State>, acts: seq<Action>) {
    && |states| == |acts| + 1
    && Init(states[0])
    && (forall k :: 0 <= k < |acts| ==> Enabled(states[k], acts[k]) && states[k + 1] == Do(states[k], acts[k]))
  }

  /** Each row lands at most `late` after its stamp, and no stamp is more than `ahead` of the true time. */
  ghost predicate OnTime(states: seq<State>, acts: seq<Action>, ahead: int, late: int)
    requires Trace(states, acts)
  {
    forall k :: 0 <= k < |acts| && acts[k].Land? ==> Timely(states[k], acts[k].ticket, ahead, late)
  }

  ghost predicate Timely(s: State, ticket: Ticket, ahead: int, late: int) {
    ticket in s.inFlight && s.clock - late <= s.inFlight[ticket].createdAt <= s.clock + ahead
  }

  /** Later rows are at most `s` older, and no row is more than `ahead` of the clock. */
  ghost predicate Steady(st: State, ahead: int, s: int) {
    && (forall a, b :: 0 <= a < b < |st.table| ==> st.table[a].createdAt - st.table[b].createdAt <= s)
    && (forall a :: 0 <= a < |st.table| ==> st.table[a].createdAt <= st.clock + ahead)
  }

  lemma {:induction false} TraceIsSteady(states: seq<State>, acts: seq<Action>, ahead: int, late: int, k: nat)
    requires Trace(states, acts) && OnTime(states, acts, ahead, late) && k < |states|
    ensures Steady(states[k], ahead, ahead + late)
    decreases k
  {
    if k > 0 {
      TraceIsSteady(states, acts, ahead, late, k - 1);
      if acts[k - 1].Land? { assert Timely(states[k - 1], acts[k - 1].ticket, ahead, late); }
    }
  }

  lemma {:induction false} HistoryRows(table: seq<Row>, email: string, kind: string, row: Row)
    requires row in History(table, email, kind)
    ensures row in table
    decreases |table|
  {
    var n := |table| - 1;
    if !(table[n].email == email && table[n].kind == kind && row == table[n]) {
      HistoryRows(table[..n], email, kind, row);
    }
  }

  lemma {:induction false} HistoryWithin(table: seq<Row>, email: string, kind: string, s: int)
    requires forall a, b :: 0 <= a < b < |table| ==> table[a].createdAt - table[b].createdAt <= s
    ensures Within(History(table, email, kind), s)
    decreases |table|
  {
    if table != [] {
      var n := |table| - 1;
      HistoryWithin(table[..n], email, kind, s);
      var rest := History(table[..n], email, kind);
      forall k | 0 <= k < |rest| ensures rest[k].createdAt - table[n].createdAt <= s {
        HistoryRows(table[..n], email, kind, rest[k]);
      }
    }
  }

  /**
   Over every interleaving of any number of processes: if rows land at most `late` after their
   stamp and stamps run at most `ahead` of the true time, the wait quoted for any address at any
   moment is off the least sufficient one by at most `ahead + late`, rounded up to whole seconds.
   */
  lemma QuotesStayClose(states: seq<State>, acts: seq<Action>, ahead: nat, late: nat, k: nat,
                        email: string, kind: string, now: int)
    requires Trace(states, acts) && OnTime(states, acts, ahead, late) && k < |states|
    ensures var rows := History(states[k].table, email, kind);
            && Disorder(rows) <= ahead + late
            && OpensAbout(states[k].table, email, kind, now,
                          RetryAfter(Recent(states[k].table, email, kind, RECENT_LIMIT, now), now),
                          CeilDiv(ahead + late, 1000))
  {
    hide Trace, OnTime, Close, OpensAbout, History, Recent, RetryAfter, Disorder, Within;
    TraceIsSteady(states, acts, ahead, late, k);
    var rows := History(states[k].table, email, kind);
    HistoryWithin(states[k].table, email, kind, ahead + late);
    DisorderIsLeast(rows, ahead + late);
    QuoteIsWithin(states[k].table, email, kind, RECENT_LIMIT, now, ahead + late, CeilDiv(ahead + late, 1000));
    CloseIsAbout(states[k].table, email, kind, now,
                 RetryAfter(Recent(states[k].table, email, kind, RECENT_LIMIT, now), now),
                 CeilDiv(ahead + late, 1000));
  }

  // ----- one process, one row at a time -----

  /** Strictly increasing creation times, in insertion order. */
  ghost predicate Stamped(table: seq<Row>, last: int) {
    && (forall a, b :: 0 <= a < b < |table| ==> table[a].createdAt < table[b].createdAt)
    && (forall a :: 0 <= a < |table| ==> table[a].createdAt <= last)
  }

  lemma StampedHistoryDescends(table: seq<Row>, last: int, email: string, kind: string)
    requires Stamped(table, last)
    ensures Descending(History(table, email, kind))
  {
    hide History;
    HistoryWithin(table, email, kind, 0);
  }

  /** Only process `p` writes, and it stamps a row only when its last one is settled. */
  ghost predicate Serial(states: seq<State>, acts: seq<Action>, p: Process)
    requires Trace(states, acts)
  {
    forall k :: 0 <= k < |acts| && acts[k].Issue? ==> acts[k].process == p && states[k].inFlight == map[]
  }

  ghost predicate Lined(s: State, p: Process) {
    && Stamped(s.table, LastIssued(s, p))
    && (forall t, u :: t in s.inFlight && u in s.inFlight ==> t == u)
    && (forall t :: t in s.inFlight ==> s.inFlight[t].createdAt == LastIssued(s, p))
    && (forall a :: 0 <= a < |s.table| && s.inFlight != map[] ==> s.table[a].createdAt < LastIssued(s, p))
  }

  lemma LinedStep(s: State, a: Action, p: Process)
    requires Lined(s, p) && Enabled(s, a) && (a.Issue? ==> a.process == p && s.inFlight == map[])
    ensures Lined(Do(s, a), p)
  {
    if a.Land? || a.Fail? {
      assert (s.inFlight - {a.ticket}).Keys == s.inFlight.Keys - {a.ticket};
    }
  }

  lemma {:induction false} SerialIsLined(states: seq<State>, acts: seq<Action>, p: Process, k: nat)
    requires Trace(states, acts) && Serial(states, acts, p) && k < |states|
    ensures Lined(states[k], p)
    decreases k
  {
    hide Lined;
    if k > 0 {
      SerialIsLined(states, acts, p, k - 1);
      LinedStep(states[k - 1], acts[k - 1], p);
    } else {
      LinedStart(states[0], p);
    }
  }

  lemma LinedStart(s: State, p: Process)
    requires Init(s)
    ensures Lined(s, p)
  {
  }

  /** A single writer that waits for each insert is always quoted exactly, however its clock behaves. */
  lemma SerialQuotesAreLeast(states: seq<State>, acts: seq<Action>, p: Process, k: nat,
                             email: string, kind: string, now: int)
    requires Trace(states, acts) && Serial(states, acts, p) && k < |states|
    ensures OpensAbout(states[k].table, email, kind, now,
                       RetryAfter(Recent(states[k].table, email, kind, RECENT_LIMIT, now), now), 0)
  {
    hide Trace, Serial, IsLeast, OpensAbout, History, Recent, RetryAfter;
    SerialIsLined(states, acts, p, k);
    StampedHistoryDescends(states[k].table, LastIssued(states[k], p), email, kind);
    QuotedWaitIsLeast(states[k].table, email, kind, now);
    LeastIsAbout(states[k].table, email, kind, now,
                 RetryAfter(Recent(states[k].table, email, kind, RECENT_LIMIT, now), now));
  }

  // ----- one process, two inserts in flight -----

  function Stamp(at: int): Row {
    Row("a", "verification", "sent", at)
  }

  function Send(ticket: Ticket, at: int): Action {
    Issue(0, at, ticket, "a", "verification", "sent")
  }

  /** A run of process 0 alone, whose clock is always right. */
  ghost predicate Alone(states: seq<State>, acts: seq<Action>) {
    && Trace(states, acts)
    && forall k :: 0 <= k < |acts| && acts[k].Issue? ==> acts[k].process == 0 && acts[k].reading == states[k].clock
  }

  lemma Extend(states: seq<State>, acts: seq<Action>, a: Action, s: State) returns (states': seq<State>, acts': seq<Action>)
    requires Alone(states, acts) && Enabled(states[|acts|], a) && s == Do(states[|acts|], a)
    requires a.Issue? ==> a.process == 0 && a.reading == states[|acts|].clock
    ensures Alone(states', acts') && |states'| == |acts'| + 1 && states'[|acts'|] == s
  {
    hide Do, Enabled;
    states', acts' := states + [s], acts + [a];
  }

  /** Two sends of one process whose inserts land in the other order, then two more. */
  lemma OneProcessOutOfOrder() returns (states: seq<State>, acts: seq<Action>)
    ensures Alone(states, acts) && |states| == |acts| + 1
    ensures states[|acts|].table == [Stamp(97000), Stamp(41000), Stamp(98000), Stamp(99000)]
  {
    states, acts := [State(0, map[], map[], [])], [];
    assert Alone(states, acts);
    hide Alone;
    states, acts := Extend(states, acts, Tick(41000), State(41000, map[], map[], []));
    states, acts := Extend(states, acts, Send(1, 41000), State(41000, map[0 := 41000], map[1 := Stamp(41000)], []));
    states, acts := Extend(states, acts, Tick(97000), State(97000, map[0 := 41000], map[1 := Stamp(41000)], []));
    states, acts := Extend(states, acts, Send(2, 97000),
                           State(97000, map[0 := 97000], map[1 := Stamp(41000), 2 := Stamp(97000)], []));
    states, acts := Extend(states, acts, Land(2),
                           State(97000, map[0 := 97000], map[1 := Stamp(41000)], [Stamp(97000)]));
    states, acts := Extend(states, acts, Land(1),
                           State(97000, map[0 := 97000], map[], [Stamp(97000), Stamp(41000)]));
    states, acts := SendOne(states, acts, 98000);
    states, acts := SendOne(states, acts, 99000);
  }

  /** One more row, settled at once. */
  lemma SendOne(states: seq<State>, acts: seq<Action>, at: int) returns (states': seq<State>, acts': seq<Action>)
    requires Alone(states, acts) && |states| == |acts| + 1
    requires var s := states[|acts|]; s.inFlight == map[] && s.issued.Keys == {0} && s.issued[0] < at && s.clock < at
    ensures Alone(states', acts') && |states'| == |acts'| + 1
    ensures states'[|acts'|] == State(at, map[0 := at], map[], states[|acts|].table + [Stamp(at)])
  {
    hide Alone;
    var s := states[|acts|];
    states', acts' := Extend(states, acts, Tick(at), s.(clock := at));
    states', acts' := Extend(states', acts', Send(1, at), State(at, map[0 := at], map[1 := Stamp(at)], s.table));
    states', acts' := Extend(states', acts', Land(1), State(at, map[0 := at], map[], s.table + [Stamp(at)]));
  }

  lemma {:induction false} SkewedHistory()
    ensures History([Stamp(97000), Stamp(41000), Stamp(98000), Stamp(99000)], "a", "verification")
         == [Stamp(99000), Stamp(98000), Stamp(41000), Stamp(97000)]
  {
    var t1 := [Stamp(97000)];
    var t2 := t1 + [Stamp(41000)];
    var t3 := t2 + [Stamp(98000)];
    var t4 := t3 + [Stamp(99000)];
    assert t1[..0] == [] && t2[..1] == t1 && t3[..2] == t2 && t4[..3] == t3;
    assert History(t1, "a", "verification") == t1;
    assert History(t2, "a", "verification") == [Stamp(41000), Stamp(97000)];
    assert History(t3, "a", "verification") == [Stamp(98000), Stamp(41000), Stamp(97000)];
    assert t4 == [Stamp(97000), Stamp(41000), Stamp(98000), Stamp(99000)];
  }

  /** What is quoted from the log of that run: one second, while three rows stay live for 57. */
  lemma SkewedHistoryMisquotes()
    ensures var rows := History([Stamp(97000), Stamp(41000), Stamp(98000), Stamp(99000)], "a", "verification");
            RetryAfter(rows, 100000) == 1 && IsLeast(rows, 100000, 57)
  {
    hide History, Younger;
    SkewedHistory();
    var rows := [Stamp(99000), Stamp(98000), Stamp(41000), Stamp(97000)];
    SkewedWindow(40000);
    assert InWindow(rows, 100000)[2] == Stamp(41000);
    assert Wait(Stamp(41000), 100000) == 1;
    SkewedWindow(97000);
    forall v | 0 <= v < 57 ensures !Sufficient(rows, 100000, v) { SkewedWindow(40000 + 1000 * v); }
  }

  lemma {:induction false} SkewedWindow(cutoff: int)
    ensures var rows := [Stamp(99000), Stamp(98000), Stamp(41000), Stamp(97000)];
            Younger(rows, cutoff) ==
              (if 99000 > cutoff then [Stamp(99000)] else []) + (if 98000 > cutoff then [Stamp(98000)] else [])
              + (if 41000 > cutoff then [Stamp(41000)] else []) + (if 97000 > cutoff then [Stamp(97000)] else [])
  {
    var r1 := [Stamp(97000)];
    var r2 := [Stamp(41000)] + r1;
    var r3 := [Stamp(98000)] + r2;
    var r4 := [Stamp(99000)] + r3;
    assert r4 == [Stamp(99000), Stamp(98000), Stamp(41000), Stamp(97000)];
    assert r1[1..] == [] && r2[1..] == r1 && r3[1..] == r2 && r4[1..] == r3;
    assert Younger(r1, cutoff) == if 97000 > cutoff then r1 else [];
    assert Younger(r2, cutoff) == (if 41000 > cutoff then [Stamp(41000)] else []) + Younger(r1, cutoff);
    assert Younger(r3, cutoff) == (if 98000 > cutoff then [Stamp(98000)] else []) + Younger(r2, cutoff);
  }

  // ----- the log of one process -----

  class DeliveryLog {
    var lastIssuedAt: int
    var inFlight: map<Ticket, Row>
    var table: seq<Row>

    /** This process as process 0 of the system above. */
    ghost function Now(clock: int): State
      reads this
    {
      State(clock, map[0 := lastIssuedAt], inFlight, table)
    }

    constructor ()
      ensures forall clock :: Init(Now(clock))
    {
      lastIssuedAt, inFlight, table := 0, map[], [];
    }

    /** `nextCreatedAt`: never behind the clock, never equal to the one before. */
    method NextCreatedAt(now: int) returns (at: int)
      modifies this`lastIssuedAt
      ensures at == lastIssuedAt && at >= now && at > old(lastIssuedAt)
      ensures at == now || at == old(lastIssuedAt) + 1
    {
      lastIssuedAt := if now > lastIssuedAt + 1 then now else lastIssuedAt + 1;
      at := lastIssuedAt;
    }

    /** `record` up to its `await`: an unusable row is refused, any other is stamped and sent off. */
    method Record(ticket: Ticket, email: string, kind: string, status: string, now: int) returns (accepted: bool)
      requires ticket !in inFlight
      modifies this
      ensures accepted == (email != "" && kind != "" && status != "")
      ensures !accepted ==> Now(now) == old(Now(now))
      ensures accepted ==> Now(now) == Do(old(Now(now)), Issue(0, now, ticket, email, kind, status))
      ensures accepted ==> table == old(table) && lastIssuedAt >= now && lastIssuedAt > old(lastIssuedAt)
                           && inFlight == old(inFlight)[ticket := Row(email, kind, status, lastIssuedAt)]
    {
      if email == "" || kind == "" || status == "" {
        return false;
      }
      var at := NextCreatedAt(now);
      inFlight := inFlight[ticket := Row(email, kind, status, at)];
      return true;
    }

    /** The insert comes back: the row is in the table, or it is lost and the caller gets nothing. */
    method Settle(ticket: Ticket, ok: bool, ghost clock: int)
      requires ticket in inFlight
      modifies this
      ensures Now(clock) == Do(old(Now(clock)), if ok then Land(ticket) else Fail(ticket))
      ensures table == old(table) + if ok then [old(inFlight)[ticket]] else []
      ensures inFlight == old(inFlight) - {ticket} && lastIssuedAt == old(lastIssuedAt)
    {
      if ok {
        table := table + [inFlight[ticket]];
      }
      inFlight := inFlight - {ticket};
    }

    /** What the endpoint answers from the table as it is: close, and exact where creation times agree. */
    method Quote(email: string, kind: string, now: int) returns (wait: int)
      ensures wait == RetryAfter(Recent(table, email, kind, 20, now), now)
      ensures forall s: nat :: InStep(table, email, kind, s) ==>
                OpensAbout(table, email, kind, now, wait, CeilDiv(s, 1000))
      ensures InStep(table, email, kind, 0) ==> OpensAbout(table, email, kind, now, wait, 0)
    {
      hide Close, History, Recent, Disorder, RetryAfter, InStep, OpensAbout;
      wait := RetryAfter(Recent(table, email, kind, RECENT_LIMIT, now), now);
      forall s: nat | InStep(table, email, kind, s)
        ensures OpensAbout(table, email, kind, now, wait, CeilDiv(s, 1000))
      {
        QuoteIsAbout(table, email, kind, now, s);
      }
      assert CeilDiv(0, 1000) == 0;
    }
  }
}
