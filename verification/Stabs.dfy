/** `stab_binsearch` (sched/kern/kdebug.c): binary search for one type of entry in a table
    that mixes several. */
module Stabs {
  import opened Paging

  const ADDRESSES: nat := 0x1_0000_0000

  // n_type and n_value of struct Stab
  datatype Stab = Stab(kind: nat, value: Word)

  // An entry of the wanted type in [lo, hi].
  predicate Entry(s: seq<Stab>, kind: nat, lo: int, hi: int, i: int) {
    0 <= i < |s| && lo <= i <= hi && s[i].kind == kind
  }

  // Entries of the wanted type increase, and none holds the last address.
  ghost predicate Increasing(s: seq<Stab>, kind: nat, lo: int, hi: int) {
    && (forall i, j :: Entry(s, kind, lo, hi, i) && Entry(s, kind, lo, hi, j) && i < j ==> s[i].value < s[j].value)
    && (forall i :: Entry(s, kind, lo, hi, i) ==> s[i].value + 1 < ADDRESSES)
  }

  // `left` is the last entry at or below `addr`.
  ghost predicate IsLast(s: seq<Stab>, kind: nat, lo: int, hi: int, addr: int, left: int) {
    && Entry(s, kind, lo, hi, left) && s[left].value <= addr
    && forall i :: Entry(s, kind, lo, hi, i) && s[i].value <= addr ==> i <= left
  }

  // `right` comes just before the first entry above `addr`, or is the end of the range.
  ghost predicate IsEnd(s: seq<Stab>, kind: nat, lo: int, hi: int, addr: int, right: int) {
    && right <= hi && (right == hi || (Entry(s, kind, lo, hi, right + 1) && s[right + 1].value > addr))
    && forall i :: Entry(s, kind, lo, hi, i) && i <= right ==> s[i].value <= addr
  }

  /** What the search answers: the bracket of `addr` when some entry is at or below it; an
      empty range when there is no entry; else what precedes the first entry. */
  ghost predicate Bracket(s: seq<Stab>, kind: nat, lo: int, hi: int, addr: int, left: int, right: int) {
    if exists i :: Entry(s, kind, lo, hi, i) && s[i].value <= addr
    then IsLast(s, kind, lo, hi, addr, left) && IsEnd(s, kind, lo, hi, addr, right)
    else if exists i :: Entry(s, kind, lo, hi, i)
    then IsEnd(s, kind, lo, hi, addr, right) && left == (if right < lo then right else lo)
    else left == lo && right == lo - 1
  }

  // The answer is determined, and it is the promised one: no other entry lies inside.
  lemma BracketIsTight(s: seq<Stab>, kind: nat, lo: int, hi: int, addr: int, left: int, right: int)
    requires Increasing(s, kind, lo, hi) && Bracket(s, kind, lo, hi, addr, left, right)
    requires exists i :: Entry(s, kind, lo, hi, i) && s[i].value <= addr
    ensures left <= right && s[left].value <= addr
    ensures forall i :: Entry(s, kind, lo, hi, i) && left < i ==> right < i && addr < s[i].value
    ensures right < hi ==> Entry(s, kind, lo, hi, right + 1)
    ensures forall left', right' :: Bracket(s, kind, lo, hi, addr, left', right') ==> left' == left && right' == right
  {
    assert IsLast(s, kind, lo, hi, addr, left) && IsEnd(s, kind, lo, hi, addr, right);
    forall left', right' | Bracket(s, kind, lo, hi, addr, left', right')
      ensures left' == left && right' == right
    {
      assert IsLast(s, kind, lo, hi, addr, left') && IsEnd(s, kind, lo, hi, addr, right');
    }
  }

  // ---------------------------------------------------------------- where the search goes

  // The last entry of the wanted type in [l, mid], or l - 1.
  ghost function LastEntry(s: seq<Stab>, kind: nat, l: int, mid: int): (k: int)
    requires 0 <= l && mid < |s| && l <= mid + 1
    ensures l - 1 <= k <= mid && (l <= k ==> s[k].kind == kind)
    ensures forall i :: k < i <= mid ==> s[i].kind != kind
    decreases mid - l
  {
    if mid < l then l - 1 else if s[mid].kind == kind then mid else LastEntry(s, kind, l, mid - 1)
  }

  // Entries `m` and `n`, with none of the type between them, hold the address and the next one.
  ghost predicate Adjacent(s: seq<Stab>, kind: nat, l: int, r: int, addr: int, m: int, n: int) {
    && 0 <= l <= m < n <= r < |s| && s[m].kind == s[n].kind == kind
    && s[m].value == addr && s[n].value == addr + 1
    && forall i :: m < i < n ==> s[i].kind != kind
  }

  // The bisection of [l, r] comes to entry `m` before it comes to entry `n`.
  ghost predicate ComesFirst(s: seq<Stab>, kind: nat, l: int, r: int, addr: int, m: int, n: int)
    requires Adjacent(s, kind, l, r, addr, m, n)
    decreases r - l
  {
    var mid := (l + r) / 2;
    var k := LastEntry(s, kind, l, mid);
    assert Entry(s, kind, l, mid, m) ==> m <= k;
    assert Entry(s, kind, l, mid, n) ==> n <= k;
    k == m || (k != n &&
      if k < m then ComesFirst(s, kind, mid + 1, r, addr, m, n) else ComesFirst(s, kind, l, k - 1, addr, m, n))
  }

  /** Two entries hold the address and the next one, and the first of them is met first: the
      search then goes on for the second. */
  ghost predicate Misled(s: seq<Stab>, kind: nat, l: int, r: int, addr: int) {
    exists m, n :: Adjacent(s, kind, l, r, addr, m, n) && ComesFirst(s, kind, l, r, addr, m, n)
  }

  // Where no entry holds the next address the search is not misled.
  lemma NotMisled(s: seq<Stab>, kind: nat, l: int, r: int, addr: int)
    requires forall i :: Entry(s, kind, l, r, i) ==> s[i].value != addr + 1
    ensures !Misled(s, kind, l, r, addr)
  {
    forall m, n
      ensures !Adjacent(s, kind, l, r, addr, m, n)
    {
      assert Entry(s, kind, l, r, n) || !Adjacent(s, kind, l, r, addr, m, n);
    }
  }

  // With nothing after them the two mislead the search; one more entry and they do not.
  lemma MisledByTwo(s: seq<Stab>, a: Word, x: Stab)
    requires |s| == 2 && s[0].kind == s[1].kind && s[0].value == a && s[1].value == a + 1
    ensures Misled(s, s[0].kind, 0, 1, a)
    ensures !Misled(s + [x], s[0].kind, 0, 2, a)
  {
    var kind := s[0].kind;
    assert Adjacent(s, kind, 0, 1, a, 0, 1);
    assert LastEntry(s, kind, 0, 0) == 0;
    var t := s + [x];
    assert LastEntry(t, kind, 0, 1) == 1;
    forall m, n | Adjacent(t, kind, 0, 2, a, m, n)
      ensures !ComesFirst(t, kind, 0, 2, a, m, n)
    {
      assert m == 0 && n == 1;
    }
  }

  // ---------------------------------------------------------------- the search

  // What *region_left is while the search goes on: the nearest entry before `l` that is at
  // or below the address, or still the start of the range.
  ghost predicate Found(s: seq<Stab>, kind: nat, lo: int, hi: int, addr: int, found: int, l: int) {
    if Entry(s, kind, lo, hi, found) && s[found].value <= addr
    then found <= l && forall i :: Entry(s, kind, lo, hi, i) && found < i ==> l <= i
    else found == lo && forall i :: Entry(s, kind, lo, hi, i) ==> l <= i
  }

  /** Between two turns: entries before `l` are at or below the address, the one after `r`
      is above it, and `a`, the address searched for now, is one more once it was matched,
      with no entry up to `r` to match that. */
  ghost predicate Searching(s: seq<Stab>, kind: nat, lo: int, hi: int, addr: int, a: int, l: int, r: int, found: int) {
    && (a == addr || a == addr + 1)
    && (a != addr ==> forall i :: Entry(s, kind, lo, hi, i) && i <= r ==> s[i].value != a)
    && (forall i :: Entry(s, kind, lo, hi, i) && i < l ==> s[i].value <= addr)
    && (r == hi || (Entry(s, kind, lo, hi, r + 1) && s[r + 1].value > addr))
    && Found(s, kind, lo, hi, addr, found, l)
  }

  // `m` is the last entry up to `mid`, if it is not before `l`.
  ghost predicate Nearest(s: seq<Stab>, kind: nat, lo: int, hi: int, l: int, m: int, mid: int) {
    && l - 1 <= m <= mid && (l <= m ==> Entry(s, kind, lo, hi, m))
    && forall i :: Entry(s, kind, lo, hi, i) && m < i ==> mid < i
  }

  // addr++ on 32 bits, and what it undoes
  function After(a: Word): (r: Word)
    ensures r != a && Before(r) == a && (a + 1 < ADDRESSES ==> r == a + 1)
  {
    if a + 1 == ADDRESSES then 0 else a + 1
  }

  function Before(a: Word): (r: Word)
    ensures r != a
  {
    if a == 0 then ADDRESSES - 1 else a - 1
  }

  lemma Turn(s: seq<Stab>, kind: nat, lo: int, hi: int, addr: int, a: int, l: int, r: int, found: int, m: int, mid: int)
    requires Increasing(s, kind, lo, hi) && Searching(s, kind, lo, hi, addr, a, l, r, found)
    requires lo <= l <= mid <= r <= hi < |s| && Nearest(s, kind, lo, hi, l, m, mid)
    ensures m < l ==> Searching(s, kind, lo, hi, addr, a, mid + 1, r, found)
    ensures l <= m && s[m].value < a ==> Searching(s, kind, lo, hi, addr, a, mid + 1, r, m)
    ensures l <= m && s[m].value > a ==> Searching(s, kind, lo, hi, addr, a, l, m - 1, found)
    ensures l <= m && s[m].value == a ==> a == addr
    ensures l <= m && s[m].value == a && (forall i :: Entry(s, kind, lo, hi, i) && i <= r ==> s[i].value != addr + 1)
      ==> Searching(s, kind, lo, hi, addr, a + 1, m, r, m)
  {
  }

  // Past the match with the next address still in reach.
  ghost predicate Strayed(s: seq<Stab>, kind: nat, lo: int, hi: int, addr: int, a: int, r: int) {
    a > addr && exists m, n :: Adjacent(s, kind, lo, hi, addr, m, n) && n <= r
  }

  // For two adjacent entries both in reach, [l, r] decides as the whole range does; once the
  // second is out of reach, it was met first.
  ghost predicate Tracks(s: seq<Stab>, kind: nat, lo: int, hi: int, addr: int, l: int, r: int) {
    forall m, n :: Adjacent(s, kind, lo, hi, addr, m, n) ==>
      if r < n then !ComesFirst(s, kind, lo, hi, addr, m, n)
      else
        && 0 <= l <= m && r < |s|
        && (ComesFirst(s, kind, l, r, addr, m, n) <==> ComesFirst(s, kind, lo, hi, addr, m, n))
  }

  // What the search knows, and whether it was misled.
  ghost predicate Going(s: seq<Stab>, kind: nat, lo: int, hi: int, addr: int, a: int, l: int, r: int, found: int) {
    if Strayed(s, kind, lo, hi, addr, a, r) then Misled(s, kind, lo, hi, addr)
    else Searching(s, kind, lo, hi, addr, a, l, r, found) && Tracks(s, kind, lo, hi, addr, l, r)
  }

  // One turn of the search, at the entry `m` it comes to.
  lemma GoOn(s: seq<Stab>, kind: nat, lo: int, hi: int, addr: int, a: int, l: int, r: int, found: int, m: int)
    requires Increasing(s, kind, lo, hi) && Going(s, kind, lo, hi, addr, a, l, r, found)
    requires 0 <= lo <= l <= r <= hi < |s| && Nearest(s, kind, lo, hi, l, m, (l + r) / 2)
    ensures m < l ==> Going(s, kind, lo, hi, addr, a, (l + r) / 2 + 1, r, found)
    ensures l <= m && s[m].value < a ==> Going(s, kind, lo, hi, addr, a, (l + r) / 2 + 1, r, m)
    ensures l <= m && s[m].value > a ==> Going(s, kind, lo, hi, addr, a, l, m - 1, found)
    ensures l <= m && s[m].value == a ==> Going(s, kind, lo, hi, addr, a + 1, m, r, m)
  {
    hide Searching, ComesFirst, Tracks, Misled, Increasing;
    if Strayed(s, kind, lo, hi, addr, a, r) {
      StaysStrayed(s, kind, lo, hi, addr, a, r, m);
    } else {
      Bounds(s, kind, lo, hi, addr, a, l, r, found);
      Turn(s, kind, lo, hi, addr, a, l, r, found, m, (l + r) / 2);
      if l <= m && s[m].value == a {
        Matched(s, kind, lo, hi, addr, l, r, found, m);
      } else if l <= m && s[m].value > a {
        TrackLow(s, kind, lo, hi, addr, a, l, r, m);
        NotStrayedBelow(s, kind, lo, hi, addr, a, r, m - 1);
      } else {
        TrackHigh(s, kind, lo, hi, addr, a, l, r, m);
      }
    }
  }

  lemma Bounds(s: seq<Stab>, kind: nat, lo: int, hi: int, addr: int, a: int, l: int, r: int, found: int)
    requires Searching(s, kind, lo, hi, addr, a, l, r, found)
    ensures a == addr || a == addr + 1
  {
  }

  lemma NotStrayedBelow(s: seq<Stab>, kind: nat, lo: int, hi: int, addr: int, a: int, r: int, r': int)
    requires !Strayed(s, kind, lo, hi, addr, a, r) && r' <= r
    ensures !Strayed(s, kind, lo, hi, addr, a, r')
  {
  }

  lemma TrackHigh(s: seq<Stab>, kind: nat, lo: int, hi: int, addr: int, a: int, l: int, r: int, m: int)
    requires Increasing(s, kind, lo, hi) && Tracks(s, kind, lo, hi, addr, l, r) && !Strayed(s, kind, lo, hi, addr, a, r)
    requires 0 <= lo <= l <= r <= hi < |s| && Nearest(s, kind, lo, hi, l, m, (l + r) / 2)
    requires a >= addr && (m < l || s[m].value < a)
    ensures Tracks(s, kind, lo, hi, addr, (l + r) / 2 + 1, r)
  {
    hide ComesFirst, Increasing, Nearest;
    forall x, y | Adjacent(s, kind, lo, hi, addr, x, y)
      ensures r < y ==> !ComesFirst(s, kind, lo, hi, addr, x, y)
      ensures y <= r ==> (l + r) / 2 + 1 <= x
      ensures y <= r ==>
        (ComesFirst(s, kind, (l + r) / 2 + 1, r, addr, x, y) <==> ComesFirst(s, kind, lo, hi, addr, x, y))
    {
      if y <= r {
        Probe(s, kind, lo, hi, addr, l, r, x, y, m);
      }
    }
  }

  lemma TrackLow(s: seq<Stab>, kind: nat, lo: int, hi: int, addr: int, a: int, l: int, r: int, m: int)
    requires Increasing(s, kind, lo, hi) && Tracks(s, kind, lo, hi, addr, l, r) && !Strayed(s, kind, lo, hi, addr, a, r)
    requires 0 <= lo <= l <= r <= hi < |s| && Nearest(s, kind, lo, hi, l, m, (l + r) / 2)
    requires a >= addr && l <= m && s[m].value > a
    ensures Tracks(s, kind, lo, hi, addr, l, m - 1)
  {
    hide ComesFirst, Increasing;
    forall x, y | Adjacent(s, kind, lo, hi, addr, x, y)
      ensures m - 1 < y ==> !ComesFirst(s, kind, lo, hi, addr, x, y)
      ensures y <= m - 1 ==> l <= x
      ensures y <= m - 1 ==>
        (ComesFirst(s, kind, l, m - 1, addr, x, y) <==> ComesFirst(s, kind, lo, hi, addr, x, y))
    {
      if y <= r {
        Probe(s, kind, lo, hi, addr, l, r, x, y, m);
      }
    }
  }

  // What the turn means for two adjacent entries both in reach.
  lemma Probe(s: seq<Stab>, kind: nat, lo: int, hi: int, addr: int, l: int, r: int, x: int, y: int, m: int)
    requires Increasing(s, kind, lo, hi) && Adjacent(s, kind, lo, hi, addr, x, y) && lo <= l <= x && y <= r <= hi < |s|
    requires Nearest(s, kind, lo, hi, l, m, (l + r) / 2)
    ensures m < l || s[m].value < addr ==>
      (l + r) / 2 + 1 <= x
      && (ComesFirst(s, kind, (l + r) / 2 + 1, r, addr, x, y) <==> ComesFirst(s, kind, l, r, addr, x, y))
    ensures l <= m && s[m].value == addr ==> ComesFirst(s, kind, l, r, addr, x, y)
    ensures l <= m && s[m].value > addr ==>
      if m == y then !ComesFirst(s, kind, l, r, addr, x, y)
      else y <= m - 1 && (ComesFirst(s, kind, l, m - 1, addr, x, y) <==> ComesFirst(s, kind, l, r, addr, x, y))
  {
    assert Entry(s, kind, lo, hi, x) && Entry(s, kind, lo, hi, y);
    MeetsNearest(s, kind, lo, hi, l, m, (l + r) / 2);
    hide LastEntry, Nearest;
    assert l <= m ==> Entry(s, kind, lo, hi, m);
  }

  lemma MeetsNearest(s: seq<Stab>, kind: nat, lo: int, hi: int, l: int, m: int, mid: int)
    requires 0 <= lo <= l <= mid + 1 && mid <= hi < |s| && Nearest(s, kind, lo, hi, l, m, mid)
    ensures LastEntry(s, kind, l, mid) == m && l - 1 <= m <= mid && (l <= m ==> Entry(s, kind, lo, hi, m))
  {
    var k := LastEntry(s, kind, l, mid);
    assert l <= k ==> Entry(s, kind, lo, hi, k);
  }

  lemma StaysStrayed(s: seq<Stab>, kind: nat, lo: int, hi: int, addr: int, a: int, r: int, m: int)
    requires Increasing(s, kind, lo, hi) && Strayed(s, kind, lo, hi, addr, a, r)
    ensures Strayed(s, kind, lo, hi, addr, a + 1, r)
    ensures Entry(s, kind, lo, hi, m) && s[m].value > a ==> Strayed(s, kind, lo, hi, addr, a, m - 1)
  {
    var x, y :| Adjacent(s, kind, lo, hi, addr, x, y) && y <= r;
    assert Entry(s, kind, lo, hi, y);
    if Entry(s, kind, lo, hi, m) && s[m].value > a {
      assert y <= m - 1;
    }
  }

  lemma Matched(s: seq<Stab>, kind: nat, lo: int, hi: int, addr: int, l: int, r: int, found: int, m: int)
    requires Increasing(s, kind, lo, hi) && 0 <= lo <= l <= m <= (l + r) / 2 && r <= hi < |s| && l <= r
    requires Searching(s, kind, lo, hi, addr, addr, l, r, found) && Tracks(s, kind, lo, hi, addr, l, r)
    requires Nearest(s, kind, lo, hi, l, m, (l + r) / 2) && s[m].value == addr
    ensures Going(s, kind, lo, hi, addr, addr + 1, m, r, m)
  {
    hide Searching, ComesFirst;
    Turn(s, kind, lo, hi, addr, addr, l, r, found, m, (l + r) / 2);
    if i :| Entry(s, kind, lo, hi, i) && i <= r && s[i].value == addr + 1 {
      NothingBetween(s, kind, lo, hi, addr, m, i);
      Probe(s, kind, lo, hi, addr, l, r, m, i, m);
      assert Strayed(s, kind, lo, hi, addr, addr + 1, r);
    } else {
      NoneInReach(s, kind, lo, hi, addr, r);
    }
  }

  lemma NothingBetween(s: seq<Stab>, kind: nat, lo: int, hi: int, addr: int, m: int, n: int)
    requires Increasing(s, kind, lo, hi) && 0 <= lo && hi < |s|
    requires Entry(s, kind, lo, hi, m) && Entry(s, kind, lo, hi, n) && s[m].value == addr && s[n].value == addr + 1
    ensures Adjacent(s, kind, lo, hi, addr, m, n)
  {
    assert !(n < m);
    forall i | m < i < n
      ensures s[i].kind != kind
    {
      assert !Entry(s, kind, lo, hi, i);
    }
  }

  lemma NoneInReach(s: seq<Stab>, kind: nat, lo: int, hi: int, addr: int, r: int)
    requires forall i :: Entry(s, kind, lo, hi, i) && i <= r ==> s[i].value != addr + 1
    ensures forall m, n :: Adjacent(s, kind, lo, hi, addr, m, n) ==> r < n
  {
    forall m, n | Adjacent(s, kind, lo, hi, addr, m, n)
      ensures r < n
    {
      assert Entry(s, kind, lo, hi, n);
    }
  }

  // The search is over: the answer is right unless it strayed.
  lemma Over(s: seq<Stab>, kind: nat, lo: int, hi: int, addr: int, a: int, l: int, r: int, found: int, last: int)
    requires Increasing(s, kind, lo, hi) && Going(s, kind, lo, hi, addr, a, l, r, found)
    requires 0 <= lo <= hi + 1 <= |s| && r < l && lo - 1 <= r <= hi && lo <= found
    requires Nearest(s, kind, lo, hi, found + 1, last, r) || (r <= found && last == r)
    requires r < hi || Entry(s, kind, lo, hi, found)
    ensures Bracket(s, kind, lo, hi, addr, last, r) <==> !Misled(s, kind, lo, hi, addr)
  {
    hide ComesFirst;
    if Strayed(s, kind, lo, hi, addr, a, r) {
      var m, n :| Adjacent(s, kind, lo, hi, addr, m, n) && n <= r;
      assert Entry(s, kind, lo, hi, m) && Entry(s, kind, lo, hi, n);
    } else {
      Done(s, kind, lo, hi, addr, a, l, r, found, last);
    }
  }

  lemma Done(s: seq<Stab>, kind: nat, lo: int, hi: int, addr: int, a: int, l: int, r: int, found: int, last: int)
    requires Increasing(s, kind, lo, hi) && Searching(s, kind, lo, hi, addr, a, l, r, found)
    requires 0 <= lo <= hi + 1 <= |s| && r < l && lo - 1 <= r <= hi && lo <= found
    requires Nearest(s, kind, lo, hi, found + 1, last, r) || (r <= found && last == r)
    requires r < hi || Entry(s, kind, lo, hi, found)
    ensures Bracket(s, kind, lo, hi, addr, last, r)
  {
  }

  lemma NoEntry(s: seq<Stab>, kind: nat, lo: int, hi: int, addr: int)
    requires forall i :: !Entry(s, kind, lo, hi, i)
    ensures Bracket(s, kind, lo, hi, addr, lo, lo - 1) && !Misled(s, kind, lo, hi, addr)
  {
    forall m, n
      ensures !Adjacent(s, kind, lo, hi, addr, m, n)
    {
      assert !Entry(s, kind, lo, hi, m);
    }
  }

  lemma StartSearch(s: seq<Stab>, kind: nat, lo: int, hi: int, addr: int)
    ensures Going(s, kind, lo, hi, addr, addr, lo, hi, lo)
  {
    hide ComesFirst;
  }

  // while (m >= stop && stabs[m].n_type != type) m--
  method ScanDown(stabs: array<Stab>, kind: nat, stop: int, from: int, ghost lo: int, ghost hi: int) returns (m: int)
    requires 0 <= lo <= stop <= from + 1 && from <= hi < stabs.Length
    ensures Nearest(stabs[..], kind, lo, hi, stop, m, from)
  {
    m := from;
    while m >= stop && stabs[m].kind != kind
      invariant stop - 1 <= m <= from
      invariant forall i :: Entry(stabs[..], kind, lo, hi, i) && m < i ==> from < i
    {
      m := m - 1;
    }
  }

  /** Terminates on every table and address: an exact match leaves `l` on an entry one below
      the new address, which the next turn cannot match again.  On entries that increase the
      answer is the bracket of the address if and only if the search is not misled. */
  method StabBinsearch(stabs: array<Stab>, left: int, right: int, kind: nat, addr: Word)
    returns (regionLeft: int, regionRight: int)
    requires 0 <= left <= right + 1 <= stabs.Length
    ensures Increasing(stabs[..], kind, left, right) ==>
      (Bracket(stabs[..], kind, left, right, addr, regionLeft, regionRight)
       <==> !Misled(stabs[..], kind, left, right, addr))
  {
    hide Going, Bracket, Misled, After, Before;
    ghost var s := stabs[..];
    ghost var fine := Increasing(s, kind, left, right);
    regionLeft, regionRight := left, right;
    var l, r, anyMatches, a := left, right, false, addr;
    StartSearch(s, kind, left, right, addr);
    while l <= r
      invariant left <= regionLeft <= right + 1 && left <= l <= right + 1 && left - 1 <= r <= right
      invariant r == regionRight
      invariant fine ==> Going(s, kind, left, right, addr, a, l, r, regionLeft)
      invariant anyMatches ==> r < right || Entry(s, kind, left, right, regionLeft)
      invariant !anyMatches ==> regionLeft == left && r == right
      invariant !anyMatches ==> forall i :: Entry(s, kind, left, right, i) ==> l <= i
      decreases r - l, if l <= r && s[l].kind == kind && s[l].value == Before(a) then 0 else 1
    {
      var trueM := (l + r) / 2;
      var m := ScanDown(stabs, kind, l, trueM, left, right);
      if fine {
        GoOn(s, kind, left, right, addr, a, l, r, regionLeft, m);
      }
      if m < l {
        l := trueM + 1;
        continue;
      }
      anyMatches := true;
      assert Entry(s, kind, left, right, m);
      if stabs[m].value < a {
        regionLeft := m;
        l := trueM + 1;
      } else if stabs[m].value > a {
        regionRight := m - 1;
        r := m - 1;
      } else {
        regionLeft := m;
        l := m;
        a := After(a);
      }
    }
    if !anyMatches {
      regionRight := regionLeft - 1;
      NoEntry(s, kind, left, right, addr);
    } else {
      ghost var found, end := regionLeft, l;
      l := regionRight;
      if l > regionLeft {
        l := ScanDown(stabs, kind, regionLeft + 1, regionRight, left, right);
      }
      regionLeft := l;
      if fine {
        Over(s, kind, left, right, addr, a, end, r, found, l);
      }
    }
  }
}
