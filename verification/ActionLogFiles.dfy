// The rotating files behind the action log and the reading of them
// (internal/actionlog/log.go).
module ActionLogFiles {
  import opened ActionLogEntries

  const MAX_LOG_SIZE: nat := 10 * 1024 * 1024
  const MAX_RECORD_SIZE: nat := MAX_LOG_SIZE
  const MAX_ROTATED_FILES: nat := 5

  // The number of bytes an entry takes in a file: its JSON and a newline.
  type SizeOf = Entry -> nat

  function Bytes(size: SizeOf, file: seq<Entry>): nat {
    if file == [] then 0 else Bytes(size, file[..|file| - 1]) + size(file[|file| - 1])
  }

  // ---- The files as a stack, the current one first ----

  type Stack = seq<seq<Entry>>

  function Rotate(files: Stack): Stack {
    [[]] + if |files| <= MAX_ROTATED_FILES then files else files[..MAX_ROTATED_FILES]
  }

  function MaybeRotated(size: SizeOf, files: Stack): (r: Stack)
    requires files != []
    ensures r != []
  {
    if Bytes(size, files[0]) < MAX_LOG_SIZE then files else Rotate(files)
  }

  function Write(size: SizeOf, files: Stack, e: Entry): (r: Stack)
    requires files != []
    ensures r != []
  {
    var ready := MaybeRotated(size, files);
    [ready[0] + [e]] + ready[1..]
  }

  // The files after a whole history of accepted entries.
  function Replay(size: SizeOf, history: seq<Entry>): (r: Stack)
    ensures r != []
  {
    if history == [] then [[]]
    else Write(size, Replay(size, history[..|history| - 1]), history[|history| - 1])
  }

  // Everything still on disk, oldest first.
  function Kept(files: Stack): seq<Entry> {
    if files == [] then [] else Kept(files[1..]) + files[0]
  }

  predicate Accepted(size: SizeOf, history: seq<Entry>) {
    forall i :: 0 <= i < |history| ==> size(history[i]) <= MAX_RECORD_SIZE
  }

  // Rotated files are full, no file reaches 20 MiB, and there are at most six.
  ghost predicate Bounded(size: SizeOf, files: Stack) {
    && 1 <= |files| <= 1 + MAX_ROTATED_FILES
    && (forall i :: 0 <= i < |files| ==> Bytes(size, files[i]) < 2 * MAX_LOG_SIZE)
    && forall i :: 1 <= i < |files| ==> MAX_LOG_SIZE <= Bytes(size, files[i])
  }

  lemma {:induction false} BytesConcat(size: SizeOf, a: seq<Entry>, b: seq<Entry>)
    ensures Bytes(size, a + b) == Bytes(size, a) + Bytes(size, b)
    decreases |b|
  {
    if b == [] {
      assert a + b == a;
    } else {
      assert (a + b)[..|a + b| - 1] == a + b[..|b| - 1];
      BytesConcat(size, a, b[..|b| - 1]);
    }
  }

  lemma WriteBounded(size: SizeOf, files: Stack, e: Entry)
    requires Bounded(size, files) && size(e) <= MAX_RECORD_SIZE
    ensures Bounded(size, Write(size, files, e))
  {
    var ready := MaybeRotated(size, files);
    assert Bytes(size, ready[0]) < MAX_LOG_SIZE;
    assert (ready[0] + [e])[..|ready[0]|] == ready[0];
    assert Bytes(size, ready[0] + [e]) == Bytes(size, ready[0]) + size(e);
  }

  lemma {:induction false} ReplayBounded(size: SizeOf, history: seq<Entry>)
    requires Accepted(size, history)
    ensures Bounded(size, Replay(size, history))
    ensures var files := Replay(size, history);
            && 1 <= |files| <= 6
            && (forall i :: 0 <= i < |files| ==> Bytes(size, files[i]) < 20 * 1024 * 1024)
            && forall i :: 1 <= i < |files| ==> 10 * 1024 * 1024 <= Bytes(size, files[i])
  {
    if history != [] {
      var front := history[..|history| - 1];
      ReplayBounded(size, front);
      WriteBounded(size, Replay(size, front), history[|history| - 1]);
    }
  }

  lemma {:induction false} KeptConcat(a: Stack, b: Stack)
    ensures Kept(a + b) == Kept(b) + Kept(a)
    decreases |a|
  {
    if a == [] {
      assert a + b == b;
    } else {
      assert (a + b)[1..] == a[1..] + b;
      KeptConcat(a[1..], b);
    }
  }

  // One write appends its entry and drops nothing, or exactly the oldest file
  // of a full set while that of the other five stays.
  lemma WriteKept(size: SizeOf, files: Stack, e: Entry)
    requires Bounded(size, files)
    ensures var drops := |files| == 1 + MAX_ROTATED_FILES && MAX_LOG_SIZE <= Bytes(size, files[0]);
            Kept(files) == (if drops then files[MAX_ROTATED_FILES] else [])
                           + Kept(if drops then files[..MAX_ROTATED_FILES] else files)
            && Kept(Write(size, files, e)) == Kept(if drops then files[..MAX_ROTATED_FILES] else files) + [e]
            && |Write(size, files, e)| >= |files|
  {
    var ready := MaybeRotated(size, files);
    assert Kept(Write(size, files, e)) == Kept(ready[1..]) + (ready[0] + [e]) by {
      assert ([ready[0] + [e]] + ready[1..])[1..] == ready[1..];
    }
    assert Kept(Write(size, files, e)) == Kept(ready) + [e];
    if |files| == 1 + MAX_ROTATED_FILES && MAX_LOG_SIZE <= Bytes(size, files[0]) {
      KeptConcat(files[..MAX_ROTATED_FILES], [files[MAX_ROTATED_FILES]]);
      assert files == files[..MAX_ROTATED_FILES] + [files[MAX_ROTATED_FILES]];
      assert Kept([files[MAX_ROTATED_FILES]]) == Kept([]) + files[MAX_ROTATED_FILES];
      assert ready[1..] == files[..MAX_ROTATED_FILES];
    } else if ready != files {
      assert ready[1..] == files;
    }
  }

  lemma {:induction false} KeptBytes(size: SizeOf, files: Stack)
    requires Bounded(size, files)
    ensures Bytes(size, Kept(files)) >= (|files| - 1) * MAX_LOG_SIZE
    decreases |files|
  {
    var rest := files[..|files| - 1];
    var oldest := files[|files| - 1];
    assert files == rest + [oldest];
    KeptConcat(rest, [oldest]);
    assert Kept([oldest]) == Kept([]) + oldest;
    BytesConcat(size, oldest, Kept(rest));
    assert Kept(files) == oldest + Kept(rest);
    if |files| > 1 {
      KeptBytes(size, rest);
      assert Bytes(size, oldest) >= MAX_LOG_SIZE;
    }
  }

  ghost predicate IsSuffix(kept: seq<Entry>, history: seq<Entry>) {
    |kept| <= |history| && kept == history[|history| - |kept|..]
  }

  // What is on disk is the end of everything logged, and something is missing
  // only when the set of files is full.
  ghost predicate KeepsEnd(files: Stack, history: seq<Entry>) {
    && IsSuffix(Kept(files), history)
    && (|Kept(files)| < |history| ==> |files| == 1 + MAX_ROTATED_FILES)
  }

  lemma SuffixExtends(history: seq<Entry>, kept: seq<Entry>, dropped: seq<Entry>, e: Entry)
    requires IsSuffix(dropped + kept, history)
    ensures IsSuffix(kept + [e], history + [e])
  {
    assert kept == (dropped + kept)[|dropped|..];
  }

  lemma WriteKeepsEnd(size: SizeOf, files: Stack, history: seq<Entry>, e: Entry)
    requires Bounded(size, files) && size(e) <= MAX_RECORD_SIZE && KeepsEnd(files, history)
    ensures KeepsEnd(Write(size, files, e), history + [e])
  {
    WriteBounded(size, files, e);
    WriteKept(size, files, e);
    hide Write, Kept, IsSuffix;
    if |files| == 1 + MAX_ROTATED_FILES && MAX_LOG_SIZE <= Bytes(size, files[0]) {
      SuffixExtends(history, Kept(files[..MAX_ROTATED_FILES]), files[MAX_ROTATED_FILES], e);
    } else {
      assert [] + Kept(files) == Kept(files);
      SuffixExtends(history, Kept(files), [], e);
    }
  }

  // Whatever the history, the entries on disk are its end, and an entry is
  // missing only with 50 MiB of newer ones there.
  lemma {:induction false} KeptIsSuffix(size: SizeOf, history: seq<Entry>)
    requires Accepted(size, history)
    ensures KeepsEnd(Replay(size, history), history)
    ensures var kept := Kept(Replay(size, history));
            |kept| < |history| ==> Bytes(size, kept) >= MAX_ROTATED_FILES * MAX_LOG_SIZE
  {
    if history == [] {
      assert Kept([[]]) == Kept([]) + [];
    } else {
      var front, e := history[..|history| - 1], history[|history| - 1];
      assert history == front + [e];
      KeptIsSuffix(size, front);
      ReplayBounded(size, front);
      WriteKeepsEnd(size, Replay(size, front), front, e);
    }
    ReplayBounded(size, history);
    KeptBytes(size, Replay(size, history));
  }

  // ---- Reading ----

  function NewestFirst(s: seq<Entry>): seq<Entry> {
    seq(|s|, i requires 0 <= i < |s| => s[|s| - 1 - i])
  }

  function Limited(s: seq<Entry>, limit: int): seq<Entry> {
    if 0 < limit < |s| then s[..limit] else s
  }

  function Listing(kept: seq<Entry>, f: Filter): seq<Entry> {
    Limited(NewestFirst(Collapse(Selected(kept, f))), f.limit)
  }

  lemma ListedIsCollapsed(kept: seq<Entry>, f: Filter, k: nat)
    requires k < |Listing(kept, f)|
    ensures var out := Collapse(Selected(kept, f));
            k < |out| && Listing(kept, f)[k] == out[|out| - 1 - k]
  {
    hide Collapse, Selected;
  }

  // Every listed entry has what the filter asks for in each field, and is a
  // stored record, at the time of its transaction's first matching one.
  lemma ListedSatisfies(kept: seq<Entry>, f: Filter, k: nat)
    requires k < |Listing(kept, f)|
    ensures var e := Listing(kept, f)[k];
            && (f.kind == "" || e.kind == f.kind) && (f.since == 0 || e.timestamp >= f.since)
            && (f.dseq == 0 || e.dseq == f.dseq) && (f.account == "" || e.account == f.account)
            && (f.workflowId == "" || e.workflowId == f.workflowId)
            && exists first, last :: first in kept && last in kept
                 && (first == last || (last.kind == "tx" && first.kind == "tx" && last.txHash == first.txHash != ""))
                 && e == last.(timestamp := first.timestamp)
  {
    var s := Selected(kept, f);
    ListedIsCollapsed(kept, f, k);
    CollapseRepresents(s);
    SelectedMembers(kept, f);
    hide Listing, Collapse, Firsts;
    var n := |Collapse(s)| - 1 - k;
    var first := Firsts(s)[n];
    assert Listing(kept, f)[k] == Represented(s, first);
    assert s[first] in s && s[LastAt(s, first)] in s;
  }

  // And unless the limit cuts it, the listing covers every record the filter
  // asks for: by the record itself or by the entry of its transaction.
  lemma ListingCovers(kept: seq<Entry>, f: Filter, e: Entry)
    requires f.limit <= 0 || |Listing(kept, f)| < f.limit
    requires e in kept
    requires (f.kind == "" || e.kind == f.kind) && (f.since == 0 || e.timestamp >= f.since)
    requires (f.dseq == 0 || e.dseq == f.dseq) && (f.account == "" || e.account == f.account)
    requires f.workflowId == "" || e.workflowId == f.workflowId
    ensures exists k :: 0 <= k < |Listing(kept, f)| && (Listing(kept, f)[k] == e || SameTx(Listing(kept, f)[k], e))
  {
    var s := Selected(kept, f);
    SelectedMembers(kept, f);
    assert e in s;
    var i :| 0 <= i < |s| && s[i] == e;
    CollapseCovers(s, i);
    var out := Collapse(s);
    var n :| 0 <= n < |out| && (out[n] == e || SameTx(out[n], e));
    hide Collapse, Selected, SameTx;
    assert Listing(kept, f)[|out| - 1 - n] == out[n];
  }

  lemma CollapseCovers(s: seq<Entry>, i: nat)
    requires i < |s|
    ensures exists n :: 0 <= n < |Collapse(s)| && (Collapse(s)[n] == s[i] || SameTx(Collapse(s)[n], s[i]))
  {
    if SameTx(s[i], s[i]) {
      CollapseKeepsTx(s, i);
    } else {
      CollapseRepresents(s);
      FirstsOpen(s);
      hide Collapse, Firsts;
      assert Opens(s, i);
      var n :| 0 <= n < |Firsts(s)| && Firsts(s)[n] == i;
      assert Collapse(s)[n] == Represented(s, i);
    }
  }

  lemma {:induction false} SelectedKeepsOrder(s: seq<Entry>, f: Filter)
    requires Chronological(s)
    ensures Chronological(Selected(s, f))
  {
    if s != [] {
      SelectedKeepsOrder(s[1..], f);
      SelectedMembers(s[1..], f);
      var rest := Selected(s[1..], f);
      forall j | 0 <= j < |rest| ensures s[0].timestamp <= rest[j].timestamp { assert rest[j] in s[1..]; }
    }
  }

  // A log in order is listed newest first, and never beyond the limit.
  lemma ListingOrdered(kept: seq<Entry>, f: Filter)
    ensures f.limit > 0 ==> |Listing(kept, f)| <= f.limit
    ensures Chronological(kept) ==>
              forall a, b :: 0 <= a < b < |Listing(kept, f)| ==>
                Listing(kept, f)[a].timestamp >= Listing(kept, f)[b].timestamp
  {
    if Chronological(kept) {
      SelectedKeepsOrder(kept, f);
      CollapseKeepsOrder(Selected(kept, f));
      hide Collapse, Selected;
      forall a, b | 0 <= a < b < |Listing(kept, f)|
        ensures Listing(kept, f)[a].timestamp >= Listing(kept, f)[b].timestamp
      {
        ListedIsCollapsed(kept, f, a);
        ListedIsCollapsed(kept, f, b);
      }
    }
  }

  method ReadFile(file: seq<Entry>, f: Filter) returns (entries: seq<Entry>)
    ensures entries == Selected(file, f)
  {
    entries := [];
    for i := 0 to |file|
      invariant entries + Selected(file[i..], f) == Selected(file, f)
    {
      assert file[i..][1..] == file[i + 1..];
      if Matches(file[i], f) { entries := entries + [file[i]]; }
    }
  }

  method Reverse(s: seq<Entry>) returns (r: seq<Entry>)
    ensures r == NewestFirst(s)
  {
    r := s;
    var i, j := 0, |s| - 1;
    while i < j
      invariant |r| == |s| && 0 <= i <= j + 1 && i + j == |s| - 1
      invariant forall k :: 0 <= k < i ==> r[k] == s[|s| - 1 - k]
      invariant forall k :: j < k < |s| ==> r[k] == s[|s| - 1 - k]
      invariant forall k :: i <= k <= j ==> r[k] == s[k]
    {
      r := r[i := r[j]][j := r[i]];
      i, j := i + 1, j - 1;
    }
  }

  // Collapsed, newest first, up to the limit.
  method List(all: seq<Entry>, limit: int) returns (r: seq<Entry>)
    ensures r == Limited(NewestFirst(Collapse(all)), limit)
  {
    hide Collapse, NewestFirst;
    r := CollapseRevisions(all);
    r := Reverse(r);
    if limit > 0 && |r| > limit { r := r[..limit]; }
  }

  // The position in the history of the oldest entry on disk.
  lemma Oldest(size: SizeOf, history: seq<Entry>) returns (from: nat)
    requires Accepted(size, history)
    ensures from <= |history| && Kept(Replay(size, history)) == history[from..]
    ensures from > 0 ==> Bytes(size, history[from..]) >= MAX_ROTATED_FILES * MAX_LOG_SIZE
    ensures |Replay(size, history)| <= 1 + MAX_ROTATED_FILES
  {
    hide Replay, Kept, Bytes, Accepted;
    ReplayBounded(size, history);
    KeptIsSuffix(size, history);
    ghost var files := Replay(size, history);
    ghost var kept := Kept(files);
    assert |files| <= 1 + MAX_ROTATED_FILES && IsSuffix(kept, history);
    from := |history| - |kept|;
    hide Bounded, KeepsEnd, IsSuffix;
    assert kept == history[from..];
  }

  // ---- The logger ----

  class Logger {
    const size: SizeOf
    // The directory: file 0 is the current log, file k is the one with suffix k.
    var directory: map<nat, seq<Entry>>
    ghost var history: seq<Entry>

    ghost function Files(): Stack
      reads this
    {
      Replay(size, history)
    }

    // The rotated files are contiguous from 1 and hold what was logged.
    ghost predicate Valid()
      reads this
    {
      && Accepted(size, history)
      && Holds(directory, Files())
    }

    constructor (size: SizeOf)
      ensures Valid() && history == [] && this.size == size
    {
      this.size := size;
      directory := map[0 := []];
      history := [];
    }

    method Rename(src: nat, dst: nat)
      modifies this`directory
      ensures directory == Renamed(old(directory), src, dst)
    {
      if src in directory {
        directory := directory[dst := directory[src]];
        directory := directory - {src};
      }
    }

    // Shifts every file up by one, overwriting the last, once the current
    // file is full.
    method MaybeRotate(ghost files: Stack)
      requires Holds(directory, files) && |files| <= 1 + MAX_ROTATED_FILES
      modifies this`directory
      ensures Holds(directory, MaybeRotated(size, files))
    {
      var current := MeasureFile(size, directory[0]);
      if current < MAX_LOG_SIZE { return; }
      ShiftStarts(directory, files);
      for i := MAX_ROTATED_FILES downto 1
        invariant Shifted(directory, files, i)
      {
        ShiftStep(directory, files, i);
        Rename(i, i + 1);
      }
      ShiftEnds(directory, files);
      Rename(0, 1);
      directory := directory[0 := []];
    }

    // Refuses an oversized record and otherwise appends the entry, stamped
    // with the time when it has none.
    method Log(entry: Entry, now: int) returns (ok: bool)
      requires Valid()
      modifies this
      ensures Valid()
      ensures var stamped := if entry.timestamp == 0 then entry.(timestamp := now) else entry;
              && ok == (size(stamped) <= MAX_RECORD_SIZE)
              && history == old(history) + if ok then [stamped] else []
      ensures !ok ==> directory == old(directory)
    {
      var stamped := if entry.timestamp == 0 then entry.(timestamp := now) else entry;
      if size(stamped) > MAX_RECORD_SIZE { return false; }
      ghost var files := Files();
      ReplayBounded(size, history);
      MaybeRotate(files);
      HoldsWritten(directory, MaybeRotated(size, files), stamped);
      directory := directory[0 := directory[0] + [stamped]];
      history := history + [stamped];
      assert history[..|history| - 1] == old(history);
      return true;
    }

    // The collapsed listing, newest first, of a suffix of everything logged: the
    // whole of it unless 50 MiB of newer entries are on disk.
    method Read(f: Filter) returns (r: seq<Entry>, ghost from: nat)
      requires Valid()
      ensures r == Listing(Kept(Files()), f)
      ensures from <= |history| && Kept(Files()) == history[from..]
      ensures from > 0 ==> Bytes(size, history[from..]) >= MAX_ROTATED_FILES * MAX_LOG_SIZE
    {
      ghost var files := Files();
      from := Oldest(size, history);
      hide *;
      var all := ReadFiles(files, f);
      r := List(all, f.limit);
    }

    // The matching entries of every file, the rotated ones oldest first.
    method ReadFiles(ghost files: Stack, f: Filter) returns (all: seq<Entry>)
      requires Holds(directory, files) && |files| <= 1 + MAX_ROTATED_FILES
      ensures all == Selected(Kept(files), f)
    {
      all := [];
      for i := MAX_ROTATED_FILES + 1 downto 1
        invariant all == Selected(Kept(Older(files, i)), f)
      {
        if i in directory {
          var entries := ReadFile(directory[i], f);
          SelectedOlder(files, i, f);
          all := all + entries;
        }
      }
      var entries := ReadFile(directory[0], f);
      SelectedOlder(files, 0, f);
      all := all + entries;
    }
  }

  lemma SelectedOlder(files: Stack, i: nat, f: Filter)
    requires i < |files|
    ensures Selected(Kept(Older(files, i)), f) == Selected(Kept(Older(files, i + 1)), f) + Selected(files[i], f)
    ensures Older(files, 0) == files
  {
    assert Older(files, i)[1..] == Older(files, i + 1);
    SelectedConcat(Kept(Older(files, i + 1)), files[i], f);
  }

  ghost predicate Holds(directory: map<nat, seq<Entry>>, files: Stack) {
    && 0 < |files|
    && (forall k: nat :: k in directory <==> k < |files|)
    && forall k: nat :: k in directory ==> directory[k] == files[k]
  }

  lemma HoldsWritten(directory: map<nat, seq<Entry>>, files: Stack, e: Entry)
    requires Holds(directory, files)
    ensures Holds(directory[0 := directory[0] + [e]], [files[0] + [e]] + files[1..])
  {
  }

  function Renamed(directory: map<nat, seq<Entry>>, src: nat, dst: nat): map<nat, seq<Entry>> {
    if src !in directory then directory
    else map k | k in directory.Keys + {dst} && k != src :: if k == dst then directory[src] else directory[k]
  }

  // Which original file is at k once the files from i up have moved by one;
  // -1 is none.
  function Source(i: nat, k: nat): int {
    if k < i then k
    else if k == i then (if i == MAX_ROTATED_FILES then i else -1)
    else if k <= MAX_ROTATED_FILES then k - 1
    else -1
  }

  ghost predicate Slot(directory: map<nat, seq<Entry>>, files: Stack, i: nat, k: nat) {
    if 0 <= Source(i, k) < |files| then k in directory && directory[k] == files[Source(i, k)] else k !in directory
  }

  ghost predicate Shifted(directory: map<nat, seq<Entry>>, files: Stack, i: nat) {
    forall k: nat :: Slot(directory, files, i, k)
  }

  lemma ShiftStarts(directory: map<nat, seq<Entry>>, files: Stack)
    requires Holds(directory, files) && |files| <= 1 + MAX_ROTATED_FILES
    ensures Shifted(directory, files, MAX_ROTATED_FILES)
  {
  }

  lemma ShiftStep(directory: map<nat, seq<Entry>>, files: Stack, i: nat)
    requires i < MAX_ROTATED_FILES && Shifted(directory, files, i + 1)
    ensures Shifted(Renamed(directory, i, i + 1), files, i)
  {
    assert Slot(directory, files, i + 1, i);
    var after := Renamed(directory, i, i + 1);
    forall k: nat ensures Slot(after, files, i, k) {
      assert Slot(directory, files, i + 1, k);
    }
  }

  lemma ShiftEnds(directory: map<nat, seq<Entry>>, files: Stack)
    requires files != [] && Shifted(directory, files, 1)
    ensures Holds(Renamed(directory, 0, 1)[0 := []], Rotate(files))
  {
    var rotated := Renamed(directory, 0, 1)[0 := []];
    assert Slot(directory, files, 1, 0);
    forall k: nat ensures k in rotated <==> k < |Rotate(files)|
                  ensures k in rotated ==> rotated[k] == Rotate(files)[k]
    {
      assert Slot(directory, files, 1, k);
    }
  }

  // The files numbered from and above.
  function Older(files: Stack, from: nat): Stack {
    if from <= |files| then files[from..] else []
  }

  method MeasureFile(size: SizeOf, file: seq<Entry>) returns (n: nat)
    ensures n == Bytes(size, file)
  {
    n := 0;
    for i := 0 to |file|
      invariant n == Bytes(size, file[..i])
    {
      n := n + size(file[i]);
      assert file[..i + 1][..i] == file[..i];
    }
    assert file[..|file|] == file;
  }
}
