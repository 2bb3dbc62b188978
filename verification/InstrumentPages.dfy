/**
 The download of the list of instruments, along a chain of cursors. The server is an
 assumption: it answers a cursor with a page or with an error, the same one each time.
 */
module InstrumentPages {
  import opened Wrappers

  /** Steps are counted in millionths. */
  datatype Instrument = Instrument(symbol: string, tickSize: nat, qtyStep: nat)

  /** A page and the cursor of the page after it; the last page has an empty one. */
  datatype Page = Page(list: seq<Instrument>, next: string)

  /** What the server answers for each cursor of one key; the empty cursor asks for the first page. */
  type Listing = string -> Result<Page>

  // ---------------------------------------------------------------- a download

  /** Whether the pages from a cursor come to an end, or to an error, within n requests. */
  predicate Ends(listing: Listing, cursor: string, n: nat)
    decreases n
  {
    n > 0 &&
    match listing(cursor)
    case Err(_) => true
    case Ok(page) => page.next == "" || Ends(listing, page.next, n - 1)
  }

  /** The pages from a cursor on, put together; an error on any of them loses them all. */
  function Load(listing: Listing, cursor: string, ghost n: nat): Result<seq<Instrument>>
    requires Ends(listing, cursor, n)
    decreases n
  {
    match listing(cursor)
    case Err(e) => Err(e)
    case Ok(page) =>
      if page.next == "" then Ok(page.list)
      else
        match Load(listing, page.next, n - 1)
        case Err(e) => Err(e)
        case Ok(rest) => Ok(page.list + rest)
  }

  /** A complete chain of pages: each is named by the one before it, and the last names none. */
  ghost predicate IsChain(listing: Listing, cursor: string, pages: seq<Page>)
  {
    && |pages| > 0
    && listing(cursor) == Ok(pages[0])
    && (forall i :: 0 <= i < |pages| - 1 ==> Linked(listing, pages, i))
    && pages[|pages| - 1].next == ""
  }

  /** A page names the page after it. */
  predicate Linked(listing: Listing, pages: seq<Page>, i: nat)
    requires i < |pages| - 1
  {
    pages[i].next != "" && listing(pages[i].next) == Ok(pages[i + 1])
  }

  ghost function Joined(pages: seq<Page>): seq<Instrument>
    decreases |pages|
  {
    if pages == [] then [] else pages[0].list + Joined(pages[1..])
  }

  /** The rest of a chain is a chain. */
  lemma ChainRest(listing: Listing, cursor: string, pages: seq<Page>)
    requires IsChain(listing, cursor, pages)
    ensures pages[0].next == "" <==> |pages| == 1
    ensures |pages| > 1 ==> IsChain(listing, pages[0].next, pages[1..])
  {
    var rest := pages[1..];
    if |pages| > 1 {
      assert Linked(listing, pages, 0);
      forall i | 0 <= i < |rest| - 1 ensures Linked(listing, rest, i) {
        assert Linked(listing, pages, i + 1);
      }
    }
  }

  lemma ChainMore(listing: Listing, cursor: string, page: Page, rest: seq<Page>)
    requires listing(cursor) == Ok(page) && page.next != "" && IsChain(listing, page.next, rest)
    ensures IsChain(listing, cursor, [page] + rest)
  {
    var pages := [page] + rest;
    assert Linked(listing, pages, 0);
    forall i | 0 < i < |pages| - 1 ensures Linked(listing, pages, i) {
      assert Linked(listing, rest, i - 1);
    }
  }

  /** A download is the lists of the whole chain of pages, in order. */
  lemma {:induction false} LoadJoinsTheChain(listing: Listing, cursor: string, n: nat, pages: seq<Page>)
    requires Ends(listing, cursor, n) && IsChain(listing, cursor, pages)
    ensures Load(listing, cursor, n) == Ok(Joined(pages))
    decreases n
  {
    ChainRest(listing, cursor, pages);
    if |pages| > 1 {
      LoadJoinsTheChain(listing, pages[0].next, n - 1, pages[1..]);
    } else {
      assert pages[0].list + [] == pages[0].list;
    }
  }

  /** A download succeeds exactly when there is a complete chain of pages. */
  lemma {:induction false} LoadSucceedsExactlyWhen(listing: Listing, cursor: string, n: nat)
    requires Ends(listing, cursor, n)
    ensures Load(listing, cursor, n).Ok? <==> exists pages :: IsChain(listing, cursor, pages)
    decreases n
  {
    var reply := listing(cursor);
    if reply.Ok? {
      var page := reply.value;
      if page.next == "" {
        assert IsChain(listing, cursor, [page]);
      } else {
        LoadSucceedsExactlyWhen(listing, page.next, n - 1);
        if rest :| IsChain(listing, page.next, rest) {
          ChainMore(listing, cursor, page, rest);
        }
      }
    }
    if pages :| IsChain(listing, cursor, pages) {
      LoadJoinsTheChain(listing, cursor, n, pages);
    }
  }

  method Download(listing: Listing, ghost n: nat) returns (r: Result<seq<Instrument>>)
    requires Ends(listing, "", n)
    ensures r == Load(listing, "", n)
  {
    hide Load, After;
    var temp: seq<Instrument> := [];
    var cursor := "";
    ghost var left := n;
    NothingBefore(Load(listing, "", n));
    while true
      invariant Ends(listing, cursor, left)
      invariant Load(listing, "", n) == After(temp, Load(listing, cursor, left))
      decreases left
    {
      NextPage(listing, cursor, left, temp);
      var reply := listing(cursor);
      if reply.Err? {
        return Err(reply.error);
      }
      temp := temp + reply.value.list;
      cursor := reply.value.next;
      left := left - 1;
      if cursor == "" {
        return Ok(temp);
      }
    }
  }

  /** What a download comes to, given what was collected before it. */
  function After(temp: seq<Instrument>, rest: Result<seq<Instrument>>): Result<seq<Instrument>>
  {
    if rest.Ok? then Ok(temp + rest.value) else rest
  }

  lemma NothingBefore(rest: Result<seq<Instrument>>)
    ensures After([], rest) == rest
  {
    if rest.Ok? {
      assert [] + rest.value == rest.value;
    }
  }

  /** One more page moves from what is still to come to what was collected. */
  lemma NextPage(listing: Listing, cursor: string, n: nat, temp: seq<Instrument>)
    requires Ends(listing, cursor, n)
    ensures var all := After(temp, Load(listing, cursor, n));
            match listing(cursor)
            case Err(e) => all == Err(e)
            case Ok(page) =>
              && (page.next == "" ==> all == Ok(temp + page.list))
              && (page.next != "" ==>
                    && Ends(listing, page.next, n - 1)
                    && all == After(temp + page.list, Load(listing, page.next, n - 1)))
  {
    var reply := listing(cursor);
    if reply.Ok? && reply.value.next != "" {
      var rest := Load(listing, reply.value.next, n - 1);
      if rest.Ok? {
        assert temp + (reply.value.list + rest.value) == (temp + reply.value.list) + rest.value;
      }
    }
  }

  // ---------------------------------------------------------------- when a download ends

  /** The cursor that is asked for next, if a page names one. */
  function NextCursor(listing: Listing, cursor: string): Option<string>
  {
    var reply := listing(cursor);
    if reply.Ok? && reply.value.next != "" then Some(reply.value.next) else None
  }

  /** The cursor that is asked for i requests later. */
  function CursorAfter(listing: Listing, cursor: string, i: nat): Option<string>
    decreases i
  {
    if i == 0 then Some(cursor)
    else
      var next := NextCursor(listing, cursor);
      if next.Some? then CursorAfter(listing, next.value, i - 1) else None
  }

  /** A cursor is asked for twice. */
  ghost predicate Repeats(listing: Listing, cursor: string)
  {
    exists i: nat, j: nat :: i < j && SameCursor(listing, cursor, i, j)
  }

  predicate SameCursor(listing: Listing, cursor: string, i: nat, j: nat)
  {
    CursorAfter(listing, cursor, i).Some? && CursorAfter(listing, cursor, i) == CursorAfter(listing, cursor, j)
  }

  lemma {:induction false} EndsAfter(listing: Listing, cursor: string, n: nat)
    ensures Ends(listing, cursor, n) <==> CursorAfter(listing, cursor, n) == None
    decreases n
  {
    if n > 0 {
      var next := NextCursor(listing, cursor);
      if next.Some? {
        EndsAfter(listing, next.value, n - 1);
      }
    }
  }

  lemma {:induction false} CursorSum(listing: Listing, cursor: string, i: nat, j: nat)
    ensures var c := CursorAfter(listing, cursor, i);
            CursorAfter(listing, cursor, i + j) == if c.Some? then CursorAfter(listing, c.value, j) else None
    decreases i
  {
    if i > 0 {
      var next := NextCursor(listing, cursor);
      if next.Some? {
        CursorSum(listing, next.value, i - 1, j);
      }
    }
  }

  /** From a cursor that comes back there is no end. */
  lemma {:induction false} CycleGoesOn(listing: Listing, cursor: string, p: nat, m: nat)
    requires p > 0 && CursorAfter(listing, cursor, p) == Some(cursor)
    ensures CursorAfter(listing, cursor, m).Some?
  {
    hide CursorAfter;
    if m < p {
      CursorSum(listing, cursor, m, p - m);
    } else {
      CycleGoesOn(listing, cursor, p, m - p);
      CursorSum(listing, cursor, p, m - p);
    }
  }

  lemma RepeatNeverEnds(listing: Listing, cursor: string, i: nat, j: nat, n: nat)
    requires i < j && SameCursor(listing, cursor, i, j)
    ensures !Ends(listing, cursor, n)
  {
    hide CursorAfter, Ends;
    var c := CursorAfter(listing, cursor, i).value;
    CursorSum(listing, cursor, i, j - i);
    CycleGoesOn(listing, c, j - i, n);
    CursorSum(listing, cursor, i, n);
    CursorSum(listing, cursor, n, i);
    EndsAfter(listing, cursor, n);
  }

  /** Following cursors does not leave a closed set. */
  ghost predicate Closed(listing: Listing, cursors: set<string>)
  {
    forall c :: c in cursors && NextCursor(listing, c).Some? ==> NextCursor(listing, c).value in cursors
  }

  lemma {:induction false} StaysInside(listing: Listing, cursor: string, i: nat, cursors: set<string>)
    requires Closed(listing, cursors) && cursor in cursors
    ensures CursorAfter(listing, cursor, i).Some? ==> CursorAfter(listing, cursor, i).value in cursors
    decreases i
  {
    if i > 0 {
      var next := NextCursor(listing, cursor);
      if next.Some? {
        StaysInside(listing, next.value, i - 1, cursors);
      }
    }
  }

  /** Distinct elements of a set are no more than the set has. */
  lemma {:induction false} DistinctFit(visited: seq<string>, s: set<string>)
    requires forall i, j :: 0 <= i < j < |visited| ==> visited[i] != visited[j]
    requires forall i :: 0 <= i < |visited| ==> visited[i] in s
    ensures |visited| <= |s|
  {
    if visited != [] {
      var n := |visited| - 1;
      DistinctFit(visited[..n], s - {visited[n]});
    }
  }

  lemma FiniteRepeats(listing: Listing, cursor: string, cursors: set<string>)
    requires Closed(listing, cursors) && cursor in cursors && !Ends(listing, cursor, |cursors|)
    ensures Repeats(listing, cursor)
  {
    hide CursorAfter, Ends, Closed;
    var n := |cursors|;
    EndsAfter(listing, cursor, n);
    forall i: nat | i <= n ensures CursorAfter(listing, cursor, i).Some? && CursorAfter(listing, cursor, i).value in cursors {
      CursorSum(listing, cursor, i, n - i);
      StaysInside(listing, cursor, i, cursors);
    }
    var visited := seq(n + 1, i requires 0 <= i <= n => CursorAfter(listing, cursor, i).value);
    if forall i, j :: 0 <= i < j < |visited| ==> visited[i] != visited[j] {
      DistinctFit(visited, cursors);
      assert false;
    } else {
      var i: nat, j: nat :| i < j < |visited| && visited[i] == visited[j];
      assert SameCursor(listing, cursor, i, j);
    }
  }

  /** Among finitely many cursors a download comes to an end exactly when no cursor comes back. */
  lemma EndsExactlyWhenNothingRepeats(listing: Listing, cursors: set<string>)
    requires Closed(listing, cursors) && "" in cursors
    ensures (exists n :: Ends(listing, "", n)) <==> !Repeats(listing, "")
  {
    hide CursorAfter, Closed, SameCursor;
    if Repeats(listing, "") {
      var i: nat, j: nat :| i < j && SameCursor(listing, "", i, j);
      forall n ensures !Ends(listing, "", n) {
        RepeatNeverEnds(listing, "", i, j, n);
      }
    } else {
      if !Ends(listing, "", |cursors|) {
        FiniteRepeats(listing, "", cursors);
      }
      var n: nat := |cursors|;
      assert Ends(listing, "", n);
    }
  }
}
