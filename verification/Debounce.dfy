/** The time-based event guard: a lazily pruned map that answers like the full history of marks. */
module Debounce {
  import opened Merkle

  type Time = nat

  /** A mark of a path at a time. */
  datatype Mark = Mark(path: Path, at: Time)

  /** The latest mark of `path` is younger than `ttl`, judged from the full history. */
  ghost predicate RecentlyMarked(history: seq<Mark>, ttl: nat, path: Path, now: Time) {
    exists i :: 0 <= i < |history| && history[i].path == path && now - history[i].at < ttl
  }

  /** A mark holds for its own path and for less than `ttl`; a history holds what any of its marks does. */
  lemma OneMark(m: Mark, ttl: nat, path: Path, now: Time)
    ensures RecentlyMarked([m], ttl, path, now) <==> path == m.path && now < m.at + ttl
    ensures !RecentlyMarked([], ttl, path, now)
  {
    if path == m.path && now < m.at + ttl {
      assert [m][0].path == path;
    }
  }

  lemma MarksAppend(a: seq<Mark>, b: seq<Mark>, ttl: nat, path: Path, now: Time)
    ensures RecentlyMarked(a + b, ttl, path, now) <==>
      RecentlyMarked(a, ttl, path, now) || RecentlyMarked(b, ttl, path, now)
  {
    if RecentlyMarked(a, ttl, path, now) {
      var i :| 0 <= i < |a| && a[i].path == path && now - a[i].at < ttl;
      assert (a + b)[i] == a[i];
    }
    if RecentlyMarked(b, ttl, path, now) {
      var i :| 0 <= i < |b| && b[i].path == path && now - b[i].at < ttl;
      assert (a + b)[|a| + i] == b[i];
    }
  }

  /** The marks left by a run of debounced events. */
  ghost function Debounced(history: seq<Mark>, ttl: nat, events: seq<Mark>): seq<Mark>
    decreases events
  {
    if events == [] then history
    else
      var e := events[0];
      Debounced(if RecentlyMarked(history, ttl, e.path, e.at) then history else history + [e], ttl, events[1..])
  }

  class EventGuard {
    const ttl: nat
    var inner: map<Path, Time>
    ghost var history: seq<Mark>
    ghost var clock: Time

    /** The map holds the latest mark of every path, except paths whose marks have all expired. */
    ghost predicate Valid()
      reads this
    {
      && (forall i :: 0 <= i < |history| ==> history[i].at <= clock)
      && (forall p :: p in inner ==> Mark(p, inner[p]) in history)
      && (forall i :: 0 <= i < |history| ==>
            if history[i].path in inner then history[i].at <= inner[history[i].path]
            else history[i].at + ttl <= clock)
    }

    constructor (ttl: nat)
      ensures Valid() && history == [] && clock == 0 && this.ttl == ttl && inner == map[]
    {
      this.ttl := ttl;
      inner, history, clock := map[], [], 0;
    }

    method MarkPath(path: Path, now: Time)
      requires Valid() && clock <= now
      modifies this
      ensures Valid() && clock == now
      ensures history == old(history) + [Mark(path, now)]
      ensures inner == old(inner)[path := now]
    {
      inner := inner[path := now];
      history := history + [Mark(path, now)];
      clock := now;
    }

    /** Pruning never changes an answer. */
    method IsSuppressed(path: Path, now: Time) returns (r: bool)
      requires Valid() && clock <= now
      modifies this
      ensures Valid() && clock == now && history == old(history)
      ensures r <==> RecentlyMarked(history, ttl, path, now)
      ensures forall p :: p != path ==> (p in inner <==> p in old(inner)) && (p in inner ==> inner[p] == old(inner)[p])
    {
      r := false;
      clock := now;
      if path in inner {
        if now - inner[path] < ttl {
          assert Mark(path, inner[path]) in history;
          return true;
        }
        inner := inner - {path};
      }
    }

    /** The debounce step of a created or modified event: pass and mark, or drop. */
    method PassesDebounce(path: Path, now: Time) returns (passed: bool)
      requires Valid() && clock <= now
      modifies this
      ensures Valid() && clock == now
      ensures passed <==> !RecentlyMarked(old(history), ttl, path, now)
      ensures history == Debounced(old(history), ttl, [Mark(path, now)])
    {
      var suppressed := IsSuppressed(path, now);
      passed := !suppressed;
      assert [Mark(path, now)][1..] == [];
      if passed {
        MarkPath(path, now);
      }
    }
  }

  // ---- The debounce bound ----

  ghost predicate InOrder(marks: seq<Mark>) {
    forall i, j :: 0 <= i < j < |marks| ==> marks[i].at <= marks[j].at
  }

  /** Marks of one path are at least `ttl` apart. */
  ghost predicate Spaced(marks: seq<Mark>, ttl: nat) {
    forall i, j :: 0 <= i < j < |marks| && marks[i].path == marks[j].path ==> marks[i].at + ttl <= marks[j].at
  }

  lemma {:induction false} DebouncedSpaced(history: seq<Mark>, ttl: nat, events: seq<Mark>)
    requires Spaced(history, ttl) && InOrder(history + events)
    ensures Spaced(Debounced(history, ttl, events), ttl) && InOrder(Debounced(history, ttl, events))
    decreases events
  {
    if events == [] {
      assert history + events == history;
    } else {
      var e, rest := events[0], events[1..];
      var all := history + events;
      if RecentlyMarked(history, ttl, e.path, e.at) {
        forall i, j | 0 <= i < j < |history + rest|
          ensures (history + rest)[i].at <= (history + rest)[j].at
        {
          var i' := if i < |history| then i else i + 1;
          var j' := if j < |history| then j else j + 1;
          assert all[i'].at <= all[j'].at;
        }
        DebouncedSpaced(history, ttl, rest);
      } else {
        assert (history + [e]) + rest == all;
        DebouncedSpaced(history + [e], ttl, rest);
      }
    }
  }

  ghost function PassesIn(marks: seq<Mark>, path: Path, from: Time, window: nat): seq<Time> {
    if marks == [] then []
    else
      (if marks[0].path == path && from <= marks[0].at <= from + window then [marks[0].at] else [])
      + PassesIn(marks[1..], path, from, window)
  }

  /** `n` times `d`, by repeated addition. */
  ghost function Times(n: nat, d: nat): nat {
    if n == 0 then 0 else Times(n - 1, d) + d
  }

  lemma {:induction false} TimesIsProduct(n: nat, d: nat)
    ensures Times(n, d) == n * d
  {
    if n > 0 {
      TimesIsProduct(n - 1, d);
    }
  }

  lemma ProductBound(n: nat, d: nat, w: nat)
    requires Times(n, d) <= w
    ensures n * d <= w
  {
    TimesIsProduct(n, d);
  }

  lemma {:induction false} PassesAreMarks(marks: seq<Mark>, path: Path, from: Time, window: nat)
    ensures forall t :: t in PassesIn(marks, path, from, window) ==>
      from <= t <= from + window && Mark(path, t) in marks
  {
    if marks != [] {
      PassesAreMarks(marks[1..], path, from, window);
    }
  }

  lemma SpacedTail(marks: seq<Mark>, ttl: nat)
    requires Spaced(marks, ttl) && marks != []
    ensures Spaced(marks[1..], ttl)
    ensures forall m :: m in marks[1..] && m.path == marks[0].path ==> marks[0].at + ttl <= m.at
  {
    var rest := marks[1..];
    forall i, j | 0 <= i < j < |rest| && rest[i].path == rest[j].path
      ensures rest[i].at + ttl <= rest[j].at
    {
      assert marks[i + 1] == rest[i] && marks[j + 1] == rest[j];
    }
    forall m | m in rest && m.path == marks[0].path
      ensures marks[0].at + ttl <= m.at
    {
      var j :| 0 <= j < |rest| && rest[j] == m;
      assert marks[j + 1] == m;
    }
  }

  ghost predicate EvenlySpaced(ts: seq<Time>, ttl: nat) {
    ts != [] ==> ts[0] + Times(|ts| - 1, ttl) <= ts[|ts| - 1]
  }

  lemma SpacedStep(t: Time, ts: seq<Time>, ttl: nat)
    requires EvenlySpaced(ts, ttl) && (ts != [] ==> t + ttl <= ts[0])
    ensures EvenlySpaced([t] + ts, ttl)
  {
    var us := [t] + ts;
    if ts != [] {
      assert us[|us| - 1] == ts[|ts| - 1];
      assert Times(|us| - 1, ttl) == Times(|ts| - 1, ttl) + ttl;
    }
  }

  lemma {:induction false} PassesSpaced(marks: seq<Mark>, ttl: nat, path: Path, from: Time, window: nat)
    requires Spaced(marks, ttl)
    ensures EvenlySpaced(PassesIn(marks, path, from, window), ttl)
  {
    if marks != [] {
      var rest := marks[1..];
      SpacedTail(marks, ttl);
      PassesSpaced(rest, ttl, path, from, window);
      PassesAreMarks(rest, path, from, window);
      var us := PassesIn(rest, path, from, window);
      if us != [] {
        assert us[0] in us;
        assert Mark(path, us[0]) in rest;
      }
      if marks[0].path == path {
        SpacedStep(marks[0].at, us, ttl);
      }
      assert [] + us == us;
    }
  }

  lemma PassesFit(marks: seq<Mark>, ttl: nat, path: Path, from: Time, window: nat)
    requires Spaced(marks, ttl)
    ensures var ts := PassesIn(marks, path, from, window);
      ts != [] ==> Times(|ts| - 1, ttl) <= window
  {
    var ts := PassesIn(marks, path, from, window);
    PassesSpaced(marks, ttl, path, from, window);
    PassesAreMarks(marks, path, from, window);
    if ts != [] {
      assert ts[0] in ts && ts[|ts| - 1] in ts;
    }
  }

  /** In any closed window of length `window`, `n` events of one path that pass the debounce check
      satisfy `(n - 1) * ttl <= window`: at most one more than the window holds whole `ttl`s. */
  lemma DebounceBound(ttl: nat, events: seq<Mark>, path: Path, from: Time, window: nat)
    requires InOrder(events)
    ensures var n := |PassesIn(Debounced([], ttl, events), path, from, window)|;
      n > 0 ==> (n - 1) * ttl <= window
  {
    assert [] + events == events;
    DebouncedSpaced([], ttl, events);
    PassesFit(Debounced([], ttl, events), ttl, path, from, window);
    var n := |PassesIn(Debounced([], ttl, events), path, from, window)|;
    if n > 0 {
      ProductBound(n - 1, ttl, window);
    }
  }

  // ---- The same bound for announcements ----

  /** A created or modified event, whether the write guard holds it back, and whether its path is one
      that is announced. */
  datatype Event = Event(mark: Mark, guarded: bool, eligible: bool)

  /** The events announced: those that the write guard lets through, that pass the debounce check and
      that are eligible. Every event that gets as far as the debounce check takes part in it. */
  ghost function Announced(history: seq<Mark>, ttl: nat, events: seq<Event>): seq<Mark>
    decreases events
  {
    if events == [] then []
    else
      var e, rest := events[0], events[1..];
      if e.guarded then Announced(history, ttl, rest)
      else
        (if e.eligible && !RecentlyMarked(history, ttl, e.mark.path, e.mark.at) then [e.mark] else [])
        + Announced(Debounced(history, ttl, [e.mark]), ttl, rest)
  }

  /** How one event adds to the announcements and to the history. */
  lemma AnnouncedStep(history: seq<Mark>, ttl: nat, e: Event, rest: seq<Event>)
    ensures var passes := !e.guarded && !RecentlyMarked(history, ttl, e.mark.path, e.mark.at);
      Announced(history, ttl, [e] + rest)
        == (if passes && e.eligible then [e.mark] else [])
           + Announced(if e.guarded then history else Debounced(history, ttl, [e.mark]), ttl, rest)
  {
    assert ([e] + rest)[1..] == rest;
    assert forall marks: seq<Mark> :: [] + marks == marks;
  }

  /** Announcements of a path keep their distance to its earlier marks and to each other. */
  ghost predicate Apart(history: seq<Mark>, ttl: nat, marks: seq<Mark>) {
    && Spaced(marks, ttl)
    && forall h, m :: h in history && m in marks && h.path == m.path ==> h.at + ttl <= m.at
  }

  lemma DebouncedOne(history: seq<Mark>, ttl: nat, m: Mark)
    ensures Debounced(history, ttl, [m])
      == if RecentlyMarked(history, ttl, m.path, m.at) then history else history + [m]
  {
    var history' := if RecentlyMarked(history, ttl, m.path, m.at) then history else history + [m];
    assert [m][1..] == [];
    assert Debounced(history', ttl, []) == history';
  }

  lemma ApartStep(history: seq<Mark>, ttl: nat, m: Mark, marks: seq<Mark>)
    requires Apart(history + [m], ttl, marks) && !RecentlyMarked(history, ttl, m.path, m.at)
    ensures Apart(history, ttl, marks) && Apart(history, ttl, [m] + marks)
  {
    assert forall h :: h in history ==> h in history + [m];
    assert m in history + [m];
    forall h | h in history && h.path == m.path
      ensures h.at + ttl <= m.at
    {
      var i :| 0 <= i < |history| && history[i] == h;
    }
    var all := [m] + marks;
    forall i, j | 0 <= i < j < |all| && all[i].path == all[j].path
      ensures all[i].at + ttl <= all[j].at
    {
      assert all[j] == marks[j - 1];
      assert i > 0 ==> all[i] == marks[i - 1];
    }
  }

  lemma {:induction false} AnnouncedApart(history: seq<Mark>, ttl: nat, events: seq<Event>)
    ensures Apart(history, ttl, Announced(history, ttl, events))
    decreases events
  {
    if events != [] {
      var e, rest := events[0], events[1..];
      if e.guarded {
        AnnouncedApart(history, ttl, rest);
      } else {
        DebouncedOne(history, ttl, e.mark);
        var history' := Debounced(history, ttl, [e.mark]);
        AnnouncedApart(history', ttl, rest);
        var later := Announced(history', ttl, rest);
        assert [] + later == later;
        if !RecentlyMarked(history, ttl, e.mark.path, e.mark.at) {
          ApartStep(history, ttl, e.mark, later);
        }
      }
    }
  }

  /** In any closed window of length `window`, `n` announcements of one path satisfy
      `(n - 1) * ttl <= window`, whatever the write guard holds back and whatever came before. */
  lemma AnnouncementBound(history: seq<Mark>, ttl: nat, events: seq<Event>, path: Path, from: Time, window: nat)
    ensures var n := |PassesIn(Announced(history, ttl, events), path, from, window)|;
      n > 0 ==> (n - 1) * ttl <= window
  {
    AnnouncedApart(history, ttl, events);
    PassesFit(Announced(history, ttl, events), ttl, path, from, window);
    var n := |PassesIn(Announced(history, ttl, events), path, from, window)|;
    if n > 0 {
      ProductBound(n - 1, ttl, window);
    }
  }
}
