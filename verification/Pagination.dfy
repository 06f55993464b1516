/**
 The paging loops of the scanner (scripts/scanProductionInFlight.ts) against the services that serve the pages.

 The two RPC services are modelled by what they promise: a page of signatures follows the one before it, and a log
 query returns the logs of its block range in order.
 */
module Pagination {
  import opened Num
  import opened Lists

  // ---------- Solana signatures ----------

  datatype Entry = Entry(signature: string, slot: nat, failed: bool)

  ghost predicate NewestFirst(history: seq<Entry>) {
    forall i, j :: 0 <= i < j < |history| ==> history[i].slot >= history[j].slot
  }

  ghost predicate DistinctSignatures(history: seq<Entry>) {
    forall i, j :: 0 <= i < j < |history| ==> history[i].signature != history[j].signature
  }

  /** What the service has after a signature; everything when none is given. */
  function After(history: seq<Entry>, before: Option<string>): seq<Entry> {
    if before.None? || history == [] then history
    else if history[0].signature == before.value then history[1..]
    else After(history[1..], before)
  }

  /** `getSignaturesForAddress` */
  function Page(history: seq<Entry>, before: Option<string>, limit: nat): seq<Entry> {
    var rest := After(history, before);
    if |rest| <= limit then rest else rest[..limit]
  }

  lemma {:induction false} AfterAt(history: seq<Entry>, n: nat)
    requires n < |history| && DistinctSignatures(history)
    ensures After(history, Some(history[n].signature)) == history[n + 1..]
    decreases n
  {
    if n > 0 {
      assert history[0].signature != history[n].signature;
      AfterAt(history[1..], n - 1);
      assert history[1..][n..] == history[n + 1..];
    }
  }

  /** A successful signature of the approved range. */
  function Wanted(fromSlot: nat, toSlot: nat): Entry -> bool {
    (e: Entry) => fromSlot <= e.slot <= toSlot && !e.failed
  }

  /** The loop over one page, which stops at the first slot before the range. */
  method ReadPage(ghost history: seq<Entry>, ghost read: nat, page: seq<Entry>, fromSlot: nat, toSlot: nat,
                  collected: seq<Entry>)
    returns (signatures: seq<Entry>, complete: bool)
    requires NewestFirst(history) && read + |page| <= |history| && page == history[read..read + |page|]
    requires collected == Filter(Wanted(fromSlot, toSlot), history[..read])
    ensures !complete ==> signatures == Filter(Wanted(fromSlot, toSlot), history[..read + |page|])
    ensures complete ==> signatures == Filter(Wanted(fromSlot, toSlot), history)
  {
    signatures, complete := collected, false;
    for i := 0 to |page|
      invariant signatures == Filter(Wanted(fromSlot, toSlot), history[..read + i])
      invariant !complete
    {
      assert page[i] == history[read + i];
      if page[i].slot < fromSlot {
        FilterPrefix(Wanted(fromSlot, toSlot), history, read + i);
        complete := true;
        return;
      }
      FilterSnoc(Wanted(fromSlot, toSlot), history, read + i);
      if page[i].slot <= toSlot && !page[i].failed {
        signatures := signatures + [page[i]];
      }
    }
  }

  /**
   The signature loop: for every page limit it ends, with exactly the successful signatures of the slot range,
   in the order of the history.
   */
  method ScanSignatures(history: seq<Entry>, fromSlot: nat, toSlot: nat, limit: nat) returns (signatures: seq<Entry>)
    requires limit > 0 && NewestFirst(history) && DistinctSignatures(history)
    ensures signatures == Filter(Wanted(fromSlot, toSlot), history)
    ensures forall e :: e in signatures <==> e in history && fromSlot <= e.slot <= toSlot && !e.failed
  {
    signatures := [];
    var before: Option<string> := None;
    ghost var read := 0;
    assert history[..0] == [];
    var paginationComplete := false;
    while !paginationComplete
      invariant 0 <= read <= |history| && After(history, before) == history[read..]
      invariant !paginationComplete ==> signatures == Filter(Wanted(fromSlot, toSlot), history[..read])
      invariant paginationComplete ==> signatures == Filter(Wanted(fromSlot, toSlot), history)
      decreases !paginationComplete, |history| - read
    {
      var page := Page(history, before, limit);
      if |page| == 0 {
        paginationComplete := true;
        assert history[..read] == history;
      } else {
        signatures, paginationComplete := ReadPage(history, read, page, fromSlot, toSlot, signatures);
        if !paginationComplete {
          before := Some(page[|page| - 1].signature);
          read := read + |page|;
          AfterAt(history, read - 1);
        }
      }
    }
    forall e
      ensures e in signatures <==> e in history && fromSlot <= e.slot <= toSlot && !e.failed
    {
      FilterMember(Wanted(fromSlot, toSlot), history, e);
    }
  }

  // ---------- Robinhood logs ----------

  datatype Log = Log(block: nat, index: nat)

  ghost predicate Chronological(logs: seq<Log>) {
    forall i, j :: 0 <= i < j < |logs| ==> logs[i].block <= logs[j].block
  }

  function InBlocks(fromBlock: nat, toBlock: nat): Log -> bool {
    (l: Log) => fromBlock <= l.block <= toBlock
  }

  /** `getLogs` */
  function LogsIn(logs: seq<Log>, fromBlock: nat, toBlock: nat): seq<Log> {
    Filter(InBlocks(fromBlock, toBlock), logs)
  }

  lemma {:induction false} NoLogs(logs: seq<Log>, a: nat, b: nat)
    requires forall i :: 0 <= i < |logs| ==> !(a <= logs[i].block <= b)
    ensures LogsIn(logs, a, b) == []
  {
    FilterPrefix(InBlocks(a, b), logs, 0);
    assert logs[..0] == [];
  }

  lemma {:induction false} AdjacentRanges(logs: seq<Log>, a: nat, m: nat, b: nat)
    requires Chronological(logs) && a <= m <= b
    ensures LogsIn(logs, a, b) == LogsIn(logs, a, m) + LogsIn(logs, m + 1, b)
    decreases |logs|
  {
    if logs != [] {
      var n := |logs| - 1;
      AdjacentRanges(logs[..n], a, m, b);
      if logs[n].block <= m {
        NoLogs(logs[..n], m + 1, b);
      }
    }
  }

  datatype Range = Range(start: nat, end: nat)

  /** Each range is non-empty and starts where the one before it ended; together they run from `a` to `b`. */
  predicate Tiles(pages: seq<Range>, a: nat, b: int) {
    if pages == [] then a == b + 1
    else
      var last := pages[|pages| - 1];
      last.start <= last.end && last.end == b && Tiles(pages[..|pages| - 1], a, last.start - 1)
  }

  lemma {:induction false} TilesStart(pages: seq<Range>, a: nat, b: int)
    requires Tiles(pages, a, b)
    ensures a <= b + 1 && forall i :: 0 <= i < |pages| ==> a <= pages[i].start <= pages[i].end <= b
    decreases |pages|
  {
    if pages != [] {
      TilesStart(pages[..|pages| - 1], a, pages[|pages| - 1].start - 1);
    }
  }

  lemma {:induction false} TilesAscend(pages: seq<Range>, a: nat, b: int, i: nat, j: nat)
    requires Tiles(pages, a, b) && i < j < |pages|
    ensures pages[i].end < pages[j].start
    decreases |pages|
  {
    var n := |pages| - 1;
    if j < n {
      TilesAscend(pages[..n], a, pages[n].start - 1, i, j);
    } else {
      TilesStart(pages[..n], a, pages[n].start - 1);
      assert pages[..n][i] == pages[i];
    }
  }

  lemma {:induction false} TileOf(pages: seq<Range>, a: nat, b: int, block: nat) returns (i: nat)
    requires Tiles(pages, a, b) && a <= block <= b
    ensures i < |pages| && pages[i].start <= block <= pages[i].end
    decreases |pages|
  {
    var n := |pages| - 1;
    if block >= pages[n].start {
      i := n;
    } else {
      i := TileOf(pages[..n], a, pages[n].start - 1, block);
    }
  }

  /** Tiles cover every block of the range exactly once. */
  lemma TilesPartition(pages: seq<Range>, a: nat, b: int, block: nat)
    requires Tiles(pages, a, b) && a <= block <= b
    ensures exists i :: 0 <= i < |pages| && pages[i].start <= block <= pages[i].end
                        && forall j :: 0 <= j < |pages| && pages[j].start <= block <= pages[j].end ==> j == i
  {
    var i := TileOf(pages, a, b, block);
    forall j | 0 <= j < |pages| && pages[j].start <= block <= pages[j].end
      ensures j == i
    {
      if i < j {
        TilesAscend(pages, a, b, i, j);
      } else if j < i {
        TilesAscend(pages, a, b, j, i);
      }
    }
  }

  /** The logs up to `done`, none when the range has not been entered. */
  function LogsUpTo(chain: seq<Log>, fromBlock: nat, done: int): seq<Log> {
    if done < fromBlock then [] else LogsIn(chain, fromBlock, done)
  }

  lemma MoreLogs(chain: seq<Log>, fromBlock: nat, done: int, end: nat)
    requires Chronological(chain) && fromBlock - 1 <= done < end
    ensures LogsUpTo(chain, fromBlock, end) == LogsUpTo(chain, fromBlock, done) + LogsIn(chain, done + 1, end)
  {
    if done >= fromBlock {
      AdjacentRanges(chain, fromBlock, done, end);
    }
  }

  method AddPage(pages: seq<Range>, ghost fromBlock: nat, page: Range) returns (r: seq<Range>)
    requires Tiles(pages, fromBlock, page.start - 1) && page.start <= page.end
    ensures r == pages + [page] && Tiles(r, fromBlock, page.end)
  {
    r := pages + [page];
    assert r[..|pages|] == pages;
  }

  /** The block-range loop: its pages tile the range, and the logs collected are those of the whole range. */
  method ScanLogs(chain: seq<Log>, fromBlock: nat, toBlock: nat, pageSize: nat)
    returns (logs: seq<Log>, pages: seq<Range>)
    requires pageSize > 0 && Chronological(chain)
    ensures logs == LogsIn(chain, fromBlock, toBlock)
    ensures fromBlock <= toBlock ==> Tiles(pages, fromBlock, toBlock)
    ensures forall i :: 0 <= i < |pages| ==> pages[i].end - pages[i].start < pageSize
  {
    logs, pages := [], [];
    var start := fromBlock;
    ghost var done := fromBlock - 1;
    while start <= toBlock
      invariant fromBlock - 1 <= done && (fromBlock <= toBlock ==> done <= toBlock)
      invariant if start <= toBlock then done == start - 1 else fromBlock <= toBlock ==> done == toBlock
      invariant start == fromBlock ==> done == fromBlock - 1
      invariant fromBlock > toBlock ==> start == fromBlock
      invariant Tiles(pages, fromBlock, done) && logs == LogsUpTo(chain, fromBlock, done)
      invariant forall i :: 0 <= i < |pages| ==> pages[i].end - pages[i].start < pageSize
    {
      var end := if start + pageSize - 1 < toBlock then start + pageSize - 1 else toBlock;
      MoreLogs(chain, fromBlock, done, end);
      logs := logs + LogsIn(chain, start, end);
      pages := AddPage(pages, fromBlock, Range(start, end));
      start := start + pageSize;
      done := end;
    }
    if fromBlock > toBlock {
      NoLogs(chain, fromBlock, toBlock);
    }
  }
}
