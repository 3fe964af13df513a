/** The local file watcher (`file_watcher.py`): the search index follows a directory by periodic scans. */
module Watcher {
  import opened Text
  import opened Embeddings
  import opened Ingest

  /** A file under the watched directory. */
  datatype Info = Info(content: string, mtime: real, ctime: real)

  /** The files a walk of the watched directory finds, and what else exists (directories, other places). */
  datatype Disk = Disk(files: map<string, Info>, others: set<string>)

  predicate Exists(d: Disk, p: string) {
    p in d.files || p in d.others
  }

  /** Which paths have a supported type, which hold tables, and what text is extracted from a content. */
  datatype Settings = Settings(
    supports: string -> bool,
    tabular: string -> bool,
    extract: (string, string) -> string,
    config: Config,
    embed: string -> Embedding)

  predicate Ingestible(st: Settings, p: string, content: string) {
    st.supports(p) && content != "" && st.extract(p, content) != ""
  }

  /** The rows of a file with nothing missing. */
  function Current(st: Settings, p: string, content: string): seq<IndexRow> {
    FullRows(st.extract(p, content), p, st.config, st.embed)
  }

  datatype State = State(known: set<string>, lastCheck: real, initialized: bool, rows: seq<IndexRow>)

  // ---------------------------------------------------------------- faults

  /** What goes wrong with one file during one scan: it cannot be read or its text not extracted, or something
      throws while its rows are replaced. */
  datatype FileFaults = FileFaults(read: bool, ingest: Faults)

  /** What goes wrong during one scan: with each file, and with dropping the rows of deleted files. */
  datatype ScanFaults = ScanFaults(file: string -> FileFaults, delete: string -> bool)

  /** Nothing goes wrong with processing the file. */
  ghost predicate FaultlessAt(f: ScanFaults, p: string) {
    var ingest := f.file(p).ingest;
    && !f.file(p).read
    && !ingest.delete && !ingest.extract && !ingest.embed && forall k: nat :: !ingest.insert(k)
  }

  // ---------------------------------------------------------------- one cycle

  predicate Newer(f: Info, lastCheck: real) {
    f.mtime > lastCheck || f.ctime > lastCheck
  }

  /** The files a scan reports. */
  function Changed(known: set<string>, lastCheck: real, d: Disk): set<string> {
    set p | p in d.files && (p !in known || Newer(d.files[p], lastCheck))
  }

  function Deleted(known: set<string>, d: Disk): set<string> {
    set p | p in known && !Exists(d, p)
  }

  /** The reported files whose rows are replaced, successfully or not. */
  function Ingested(st: Settings, d: Disk, f: ScanFaults, changed: set<string>): set<string> {
    set p | p in changed && p in d.files && !f.file(p).read && Ingestible(st, p, d.files[p].content)
  }

  /** The rows of a file after they were replaced. */
  function Replacement(st: Settings, p: string, content: string, f: Faults, before: seq<IndexRow>): seq<IndexRow> {
    var text := st.extract(p, content);
    (if f.delete then before else [])
    + if Reaches(text, st.tabular(p), st.config, f) then
        Stored(ChunkText(text, st.config.chunkSize, st.config.overlap).value, p, st.embed, f.insert)
      else []
  }

  /** The rows of one file after the reported files were processed and the deleted ones dropped. */
  function RowsAfter(st: Settings, d: Disk, f: ScanFaults, changed: set<string>, deleted: set<string>, p: string,
                     before: seq<IndexRow>): seq<IndexRow>
  {
    if p in deleted then (if f.delete(p) then before else [])
    else if p in Ingested(st, d, f, changed) then
      Replacement(st, p, d.files[p].content, f.file(p).ingest, before)
    else before
  }

  ghost predicate RowsFollow(st: Settings, d: Disk, f: ScanFaults, changed: set<string>, deleted: set<string>,
                             rows: seq<IndexRow>, rows': seq<IndexRow>)
  {
    forall p :: RowsOf(rows', p) == RowsAfter(st, d, f, changed, deleted, p, RowsOf(rows, p))
  }

  /** An incremental scan.  What was processed becomes known and what was deleted unknown, also when it
      failed. */
  ghost predicate Scanned(st: Settings, d: Disk, f: ScanFaults, s: State, now: real, s': State) {
    var changed, deleted := Changed(s.known, s.lastCheck, d), Deleted(s.known, d);
    && s'.known == s.known - deleted + Ingested(st, d, f, changed)
    && s'.lastCheck == now && s'.initialized == s.initialized
    && RowsFollow(st, d, f, changed, deleted, s.rows, s'.rows)
  }

  /** The first scan after a start: every file found becomes known, supported or not. */
  ghost predicate InitialScanned(st: Settings, d: Disk, f: ScanFaults, s: State, now: real, s': State) {
    var deleted := Deleted(s.known, d);
    && s'.known == d.files.Keys
    && s'.lastCheck == now && s'.initialized
    && RowsFollow(st, d, f, Changed(s.known - deleted, s.lastCheck, d), deleted, s.rows, s'.rows)
  }

  /** One `check_for_changes` during which the disk keeps still; `first` are the faults of the initial scan,
      if there is one. */
  ghost predicate Cycle(st: Settings, d: Disk, first: ScanFaults, f: ScanFaults, s: State, s': State) {
    if s.initialized then exists now :: Scanned(st, d, f, s, now, s')
    else exists now, mid, now' :: InitialScanned(st, d, first, s, now, mid) && Scanned(st, d, f, mid, now', s')
  }

  // ---------------------------------------------------------------- the index follows the disk

  ghost predicate Indexed(s: State, p: string) {
    RowsOf(s.rows, p) != []
  }

  /** The scan reports the file, for it is unknown or stamped after the last check. */
  predicate Reported(s: State, d: Disk, p: string)
    requires p in d.files
  {
    p !in s.known || Newer(d.files[p], s.lastCheck)
  }

  /** A file that yields text is indexed with exactly the chunks of that text. */
  ghost predicate CurrentAt(st: Settings, s: State, d: Disk, p: string) {
    p in d.files && Ingestible(st, p, d.files[p].content) ==>
      p in s.known && RowsOf(s.rows, p) == Current(st, p, d.files[p].content)
  }

  /** What the watcher knows of the path is as on the disk; of an unknown path nothing is claimed. */
  ghost predicate TracksAt(st: Settings, s: State, d: Disk, p: string) {
    p in s.known ==> p in d.files && CurrentAt(st, s, d, p)
  }

  /** From the disk `d` to the disk `d'` a known path changes properly: a change of the file's content shows in
      its time stamps, and it does not turn into something the walk skips. */
  ghost predicate StampedAt(d: Disk, d': Disk, s: State, p: string) {
    p in s.known ==>
      && p !in d'.others
      && (p in d.files && p in d'.files && d.files[p].content != d'.files[p].content ==>
            Newer(d'.files[p], s.lastCheck))
  }

  /** Without faults a file's rows are replaced by its current ones. */
  lemma FaultlessReplacement(st: Settings, p: string, content: string, f: ScanFaults, before: seq<IndexRow>)
    requires FaultlessAt(f, p)
    ensures Replacement(st, p, content, f.file(p).ingest, before) == Current(st, p, content)
  {
    var r := ChunkText(st.extract(p, content), st.config.chunkSize, st.config.overlap);
    if r.Ok? {
      SameStored(r.value, p, st.embed, f.file(p).ingest.insert, k => false);
    }
  }

  /** A scan without faults on a file that yields text, whatever the state before it: the file's rows are
      current afterwards exactly if the scan reports the file or they were current already. */
  lemma ScanCurrentIff(st: Settings, d: Disk, f: ScanFaults, s: State, now: real, s': State, p: string)
    requires Scanned(st, d, f, s, now, s') || InitialScanned(st, d, f, s, now, s')
    requires p in d.files && Ingestible(st, p, d.files[p].content) && FaultlessAt(f, p)
    ensures var current := Current(st, p, d.files[p].content);
            RowsOf(s'.rows, p) == current <==> Reported(s, d, p) || RowsOf(s.rows, p) == current
    ensures p in s'.known
  {
    var deleted := Deleted(s.known, d);
    var known := if Scanned(st, d, f, s, now, s') then s.known else s.known - deleted;
    assert RowsOf(s'.rows, p) == RowsAfter(st, d, f, Changed(known, s.lastCheck, d), deleted, p, RowsOf(s.rows, p));
    FaultlessReplacement(st, p, d.files[p].content, f, RowsOf(s.rows, p));
  }

  lemma ScanConverges(st: Settings, d: Disk, d': Disk, f: ScanFaults, s: State, now: real, s': State, p: string)
    requires Scanned(st, d', f, s, now, s') || InitialScanned(st, d', f, s, now, s')
    requires TracksAt(st, s, d, p) && StampedAt(d, d', s, p) && FaultlessAt(f, p)
    ensures TracksAt(st, s', d', p) && CurrentAt(st, s', d', p)
  {
    if p in d'.files && Ingestible(st, p, d'.files[p].content) {
      ScanCurrentIff(st, d', f, s, now, s', p);
    }
  }

  /** A cycle without faults on a path makes the index current on that path, whatever goes wrong elsewhere. */
  lemma CycleConverges(st: Settings, d: Disk, d': Disk, first: ScanFaults, f: ScanFaults, s: State, s': State,
                       p: string)
    requires TracksAt(st, s, d, p) && StampedAt(d, d', s, p)
    requires FaultlessAt(first, p) && FaultlessAt(f, p)
    requires Cycle(st, d', first, f, s, s') && d'.files.Keys !! d'.others
    ensures TracksAt(st, s', d', p) && CurrentAt(st, s', d', p)
  {
    if s.initialized {
      var now :| Scanned(st, d', f, s, now, s');
      ScanConverges(st, d, d', f, s, now, s', p);
    } else {
      var now, mid, now' :| InitialScanned(st, d', first, s, now, mid) && Scanned(st, d', f, mid, now', s');
      ScanConverges(st, d, d', first, s, now, mid, p);
      InitialKnows(st, d', first, s, now, mid, p);
      ScanConverges(st, d', d', f, mid, now', s', p);
    }
  }

  /** The first scan knows files only. */
  lemma InitialKnows(st: Settings, d: Disk, f: ScanFaults, s: State, now: real, s': State, p: string)
    requires InitialScanned(st, d, f, s, now, s')
    requires d.files.Keys !! d.others
    ensures StampedAt(d, d, s', p)
  {
  }

  /** How the watcher comes to a cycle: it goes on, or it was started again, with the saved state or, if there
      is no state manager, with no known files. */
  datatype Start = Running | Restarted | Forgotten

  /** What the cycles of a run see and suffer. */
  datatype Round = Round(disk: Disk, start: Start, first: ScanFaults, faults: ScanFaults)

  function Entered(s: State, start: Start): State {
    match start
    case Running => s
    case Restarted => s.(initialized := false)
    case Forgotten => s.(initialized := false, known := {})
  }

  /** A run of cycles, with any disks, restarts and faults. */
  ghost predicate IsRun(st: Settings, rounds: seq<Round>, states: seq<State>) {
    && |states| == |rounds| + 1
    && forall i :: 0 <= i < |rounds| ==> RunStep(st, rounds, states, i)
  }

  ghost predicate RunStep(st: Settings, rounds: seq<Round>, states: seq<State>, i: nat)
    requires i < |rounds| && |states| == |rounds| + 1
  {
    var r := rounds[i];
    && r.disk.files.Keys !! r.disk.others
    && Cycle(st, r.disk, r.first, r.faults, Entered(states[i], r.start), states[i + 1])
  }

  /** The disk as it was scanned last, after `n` cycles. */
  function DiskAt(d: Disk, rounds: seq<Round>, n: nat): Disk
    requires n <= |rounds|
  {
    if n == 0 then d else rounds[n - 1].disk
  }

  /** In cycle `i` the path is processed without faults, and it changed properly since the disk scanned before. */
  ghost predicate ProperRound(d: Disk, rounds: seq<Round>, states: seq<State>, p: string, i: nat)
    requires i < |rounds| && |states| == |rounds| + 1
  {
    var r := rounds[i];
    && StampedAt(DiskAt(d, rounds, i), r.disk, Entered(states[i], r.start), p)
    && FaultlessAt(r.first, p) && FaultlessAt(r.faults, p)
  }

  ghost predicate ProperFrom(d: Disk, rounds: seq<Round>, states: seq<State>, p: string, m: nat, n: nat)
    requires m <= n <= |rounds| && |states| == |rounds| + 1
  {
    forall i :: m <= i < n ==> ProperRound(d, rounds, states, p, i)
  }

  /** After `n` cycles what is known of the path is as on the disk, and the path is current. */
  ghost predicate ConvergedAt(st: Settings, d: Disk, rounds: seq<Round>, states: seq<State>, p: string, n: nat)
    requires n <= |rounds| && |states| == |rounds| + 1
  {
    TracksAt(st, states[n], DiskAt(d, rounds, n), p) && CurrentAt(st, states[n], DiskAt(d, rounds, n), p)
  }

  /** The cycle `n` begins with what is known of the path as on the disk. */
  ghost predicate TracksInto(st: Settings, d: Disk, rounds: seq<Round>, states: seq<State>, p: string, n: nat)
    requires n < |rounds| && |states| == |rounds| + 1
  {
    TracksAt(st, Entered(states[n], rounds[n].start), DiskAt(d, rounds, n), p)
  }

  lemma RunStepConverges(st: Settings, d: Disk, rounds: seq<Round>, states: seq<State>, p: string, n: nat)
    requires n < |rounds| && |states| == |rounds| + 1
    requires RunStep(st, rounds, states, n) && TracksInto(st, d, rounds, states, p, n)
    requires ProperRound(d, rounds, states, p, n)
    ensures ConvergedAt(st, d, rounds, states, p, n + 1)
  {
    var r := rounds[n];
    CycleConverges(st, DiskAt(d, rounds, n), r.disk, r.first, r.faults, Entered(states[n], r.start), states[n + 1], p);
  }

  lemma StillTracks(st: Settings, d: Disk, rounds: seq<Round>, states: seq<State>, p: string, n: nat)
    requires n < |rounds| && |states| == |rounds| + 1 && ConvergedAt(st, d, rounds, states, p, n)
    ensures TracksInto(st, d, rounds, states, p, n)
  {
  }

  /** From any point of a run where what is known of the path is as on the disk, a first start and a start with
      nothing known among them, the path is current after every cycle as long as it is processed without faults
      and changes properly, whatever goes wrong with other paths. */
  lemma {:induction false} RunsConverge(st: Settings, d: Disk, rounds: seq<Round>, states: seq<State>, p: string,
                                        m: nat, n: nat)
    requires IsRun(st, rounds, states) && m <= n < |rounds| && TracksInto(st, d, rounds, states, p, m)
    requires ProperFrom(d, rounds, states, p, m, n + 1)
    ensures ConvergedAt(st, d, rounds, states, p, n + 1)
    decreases n
  {
    if m < n {
      RunsConverge(st, d, rounds, states, p, m, n - 1);
      StillTracks(st, d, rounds, states, p, n);
    }
    RunStepConverges(st, d, rounds, states, p, n);
  }

  /** What is not known is tracked on every disk: so begin a first start and a start that lost the known files. */
  lemma UnknownTracks(st: Settings, s: State, d: Disk, p: string)
    requires p !in s.known
    ensures TracksAt(st, s, d, p)
  {
  }

  /** A running watcher scans the disk `d` without faults on the path. */
  ghost predicate Undisturbed(r: Round, d: Disk, p: string) {
    r.disk == d && r.start.Running? && FaultlessAt(r.faults, p)
  }

  ghost predicate ReportedBefore(states: seq<State>, d: Disk, p: string, n: nat)
    requires n <= |states| && p in d.files
  {
    exists i :: 0 <= i < n && Reported(states[i], d, p)
  }

  lemma ReportedNext(states: seq<State>, d: Disk, p: string, n: nat)
    requires n < |states| && p in d.files
    ensures ReportedBefore(states, d, p, n + 1) <==> ReportedBefore(states, d, p, n) || Reported(states[n], d, p)
  {
    if ReportedBefore(states, d, p, n + 1) {
      var i :| 0 <= i < n + 1 && Reported(states[i], d, p);
      assert i < n ==> ReportedBefore(states, d, p, n);
    }
  }

  lemma UndisturbedRound(st: Settings, rounds: seq<Round>, states: seq<State>, d: Disk, p: string, n: nat)
    requires n < |rounds| && |states| == |rounds| + 1 && RunStep(st, rounds, states, n)
    requires Undisturbed(rounds[n], d, p) && states[n].initialized
    requires p in d.files && Ingestible(st, p, d.files[p].content)
    ensures states[n + 1].initialized
    ensures RowsOf(states[n + 1].rows, p) == Current(st, p, d.files[p].content)
       <==> Reported(states[n], d, p) || RowsOf(states[n].rows, p) == Current(st, p, d.files[p].content)
  {
    var f, s := rounds[n].faults, states[n];
    var now :| Scanned(st, d, f, s, now, states[n + 1]);
    ScanCurrentIff(st, d, f, s, now, states[n + 1], p);
  }

  /** While a file stays as it is and is processed without faults, its rows are current after `n` cycles exactly
      if they were at the start or one of the cycles reported it.  So a file that failed, or changed behind the
      back of a scan, is caught up with exactly by a scan that finds it unknown or stamped after the last
      check. */
  lemma {:induction false} CaughtUpIff(st: Settings, rounds: seq<Round>, states: seq<State>, d: Disk, p: string,
                                       n: nat)
    requires IsRun(st, rounds, states) && n <= |rounds| && states[0].initialized
    requires forall i :: 0 <= i < n ==> Undisturbed(rounds[i], d, p)
    requires p in d.files && Ingestible(st, p, d.files[p].content)
    ensures states[n].initialized
    ensures RowsOf(states[n].rows, p) == Current(st, p, d.files[p].content)
       <==> (|| RowsOf(states[0].rows, p) == Current(st, p, d.files[p].content)
             || ReportedBefore(states, d, p, n))
  {
    if n > 0 {
      CaughtUpIff(st, rounds, states, d, p, n - 1);
      UndisturbedRound(st, rounds, states, d, p, n - 1);
      ReportedNext(states, d, p, n - 1);
    }
  }

  // ---------------------------------------------------------------- what a scan does with one file

  /** A scan, incremental or initial, and one file of the disk: if the file is unknown, or was modified or
      created after the last check, and yields text, its rows are those of its current text; if it is known and
      stamped no later than the last check, or has no supported type, no content or no text, they stay. */
  lemma ScanOfFile(st: Settings, d: Disk, f: ScanFaults, s: State, now: real, s': State, p: string)
    requires Scanned(st, d, f, s, now, s') || InitialScanned(st, d, f, s, now, s')
    requires p in d.files
    ensures var info := d.files[p];
            var text := st.extract(p, info.content);
            && (&& (p !in s.known || info.mtime > s.lastCheck || info.ctime > s.lastCheck)
                && st.supports(p) && info.content != "" && text != "" && FaultlessAt(f, p) ==>
                  p in s'.known && RowsOf(s'.rows, p) == FullRows(text, p, st.config, st.embed))
            && (p in s.known && info.mtime <= s.lastCheck && info.ctime <= s.lastCheck ==>
                  RowsOf(s'.rows, p) == RowsOf(s.rows, p))
            && (!st.supports(p) || info.content == "" || text == "" ==> RowsOf(s'.rows, p) == RowsOf(s.rows, p))
  {
    var deleted := Deleted(s.known, d);
    var known := if Scanned(st, d, f, s, now, s') then s.known else s.known - deleted;
    assert RowsOf(s'.rows, p) == RowsAfter(st, d, f, Changed(known, s.lastCheck, d), deleted, p, RowsOf(s.rows, p));
    if FaultlessAt(f, p) {
      FaultlessReplacement(st, p, d.files[p].content, f, RowsOf(s.rows, p));
    }
  }

  /** And a path that is gone: a known one loses its rows unless dropping them fails, and is forgotten; the rows
      of an unknown one, and of what still exists without being walked, stay. */
  lemma ScanOfMissing(st: Settings, d: Disk, f: ScanFaults, s: State, now: real, s': State, p: string)
    requires Scanned(st, d, f, s, now, s') || InitialScanned(st, d, f, s, now, s')
    requires p !in d.files
    ensures p in s.known && p !in d.others && !f.delete(p) ==> RowsOf(s'.rows, p) == []
    ensures p !in s.known || p in d.others || f.delete(p) ==> RowsOf(s'.rows, p) == RowsOf(s.rows, p)
    ensures p in s'.known ==> p in s.known && p in d.others
  {
    var deleted := Deleted(s.known, d);
    var known := if Scanned(st, d, f, s, now, s') then s.known else s.known - deleted;
    assert RowsOf(s'.rows, p) == RowsAfter(st, d, f, Changed(known, s.lastCheck, d), deleted, p, RowsOf(s.rows, p));
  }

  /** While a running watcher checks, a known file that was modified or created after the last check is current
      after the cycle if it yields text and is processed without faults, and one that was not keeps its rows
      whatever happens. */
  lemma CycleOfKnown(st: Settings, d: Disk, first: ScanFaults, f: ScanFaults, s: State, s': State, p: string)
    requires Cycle(st, d, first, f, s, s') && s.initialized && p in s.known && p in d.files
    ensures var info := d.files[p];
            var text := st.extract(p, info.content);
            && ((info.mtime > s.lastCheck || info.ctime > s.lastCheck)
                && st.supports(p) && info.content != "" && text != "" && FaultlessAt(f, p) ==>
                  RowsOf(s'.rows, p) == FullRows(text, p, st.config, st.embed))
            && (info.mtime <= s.lastCheck && info.ctime <= s.lastCheck ==> RowsOf(s'.rows, p) == RowsOf(s.rows, p))
  {
    var now :| Scanned(st, d, f, s, now, s');
    ScanOfFile(st, d, f, s, now, s', p);
  }

  // ---------------------------------------------------------------- what is indexed is known and on the disk

  /** Dropping the rows of a deleted file fails in the scan that finds it deleted. */
  predicate DropFails(s: State, first: ScanFaults, f: ScanFaults, p: string) {
    if s.initialized then f.delete(p) else first.delete(p)
  }

  /** The rows of a path that the walk does not find lose their owner: it is not known, or a start forgets
      something that is not walked, or dropping the rows fails. */
  ghost predicate Strays(s: State, d: Disk, first: ScanFaults, f: ScanFaults, p: string) {
    && Indexed(s, p) && p !in d.files
    && (p !in s.known || if p in d.others then !s.initialized else DropFails(s, first, f, p))
  }

  /** A running watcher keeps an indexed file unknown if it cannot process it. */
  ghost predicate Unclaimed(st: Settings, s: State, d: Disk, f: ScanFaults, p: string) {
    && Indexed(s, p) && p in d.files && p !in s.known
    && s.initialized && (f.file(p).read || !Ingestible(st, p, d.files[p].content))
  }

  ghost predicate OwnedAt(s: State, p: string) {
    Indexed(s, p) ==> p in s.known
  }

  lemma ScanKnown(st: Settings, d: Disk, f: ScanFaults, s: State, now: real, s': State, p: string)
    requires Scanned(st, d, f, s, now, s') && d.files.Keys !! d.others
    ensures p in s'.known <==>
              (if p in d.files then p in s.known || (!f.file(p).read && Ingestible(st, p, d.files[p].content))
               else p in s.known && p in d.others)
    ensures p !in d.files ==>
              RowsOf(s'.rows, p)
              == if p in s.known && p !in d.others && !f.delete(p) then [] else RowsOf(s.rows, p)
    ensures p in d.files && p !in s'.known ==> RowsOf(s'.rows, p) == RowsOf(s.rows, p)
  {
    assert RowsOf(s'.rows, p)
        == RowsAfter(st, d, f, Changed(s.known, s.lastCheck, d), Deleted(s.known, d), p, RowsOf(s.rows, p));
  }

  lemma InitialScanKnown(st: Settings, d: Disk, f: ScanFaults, s: State, now: real, s': State, p: string)
    requires InitialScanned(st, d, f, s, now, s')
    ensures s'.initialized && (p in s'.known <==> p in d.files)
    ensures p !in d.files ==>
              RowsOf(s'.rows, p)
              == if p in s.known && p !in d.others && !f.delete(p) then [] else RowsOf(s.rows, p)
  {
    var deleted := Deleted(s.known, d);
    assert RowsOf(s'.rows, p)
        == RowsAfter(st, d, f, Changed(s.known - deleted, s.lastCheck, d), deleted, p, RowsOf(s.rows, p));
  }

  /** After a cycle from any state, whatever its faults: an indexed path is known exactly if its rows did not
      stray and it is not a file left unclaimed; and a known path is a file on the disk exactly if it is not
      something a running watcher knew that is no longer walked. */
  lemma CycleOwnedIff(st: Settings, d: Disk, first: ScanFaults, f: ScanFaults, s: State, s': State, p: string)
    requires Cycle(st, d, first, f, s, s') && d.files.Keys !! d.others
    ensures OwnedAt(s', p) <==> !Strays(s, d, first, f, p) && !Unclaimed(st, s, d, f, p)
    ensures (p in s'.known ==> p in d.files) <==> !(s.initialized && p in s.known && p in d.others)
  {
    if s.initialized {
      var now :| Scanned(st, d, f, s, now, s');
      ScanKnown(st, d, f, s, now, s', p);
    } else {
      var now, mid, now' :| InitialScanned(st, d, first, s, now, mid) && Scanned(st, d, f, mid, now', s');
      InitialScanKnown(st, d, first, s, now, mid, p);
      ScanKnown(st, d, f, mid, now', s', p);
    }
  }

  /** Over every run, with any changes of the files and any faults, what is indexed is known after every cycle
      exactly if no rows stray in any cycle. */
  lemma RunsOwnedIff(st: Settings, rounds: seq<Round>, states: seq<State>, p: string)
    requires IsRun(st, rounds, states) && OwnedAt(states[0], p)
    ensures (forall n :: 0 <= n < |states| ==> OwnedAt(states[n], p))
       <==> (forall i :: 0 <= i < |rounds| ==> !StraysIn(rounds[i], states[i], p))
  {
    if forall i :: 0 <= i < |rounds| ==> !StraysIn(rounds[i], states[i], p) {
      forall n | 0 <= n < |states| ensures OwnedAt(states[n], p) {
        OwnedUpTo(st, rounds, states, p, n);
      }
    }
    if forall n :: 0 <= n < |states| ==> OwnedAt(states[n], p) {
      forall i | 0 <= i < |rounds| ensures !StraysIn(rounds[i], states[i], p) {
        var r := rounds[i];
        assert RunStep(st, rounds, states, i) && OwnedAt(states[i + 1], p);
        CycleOwnedIff(st, r.disk, r.first, r.faults, Entered(states[i], r.start), states[i + 1], p);
      }
    }
  }

  ghost predicate StraysIn(r: Round, s: State, p: string) {
    Strays(Entered(s, r.start), r.disk, r.first, r.faults, p)
  }

  lemma {:induction false} OwnedUpTo(st: Settings, rounds: seq<Round>, states: seq<State>, p: string, n: nat)
    requires IsRun(st, rounds, states) && n <= |rounds| && OwnedAt(states[0], p)
    requires forall i :: 0 <= i < |rounds| ==> !StraysIn(rounds[i], states[i], p)
    ensures OwnedAt(states[n], p)
  {
    if n > 0 {
      OwnedUpTo(st, rounds, states, p, n - 1);
      var r := rounds[n - 1];
      assert RunStep(st, rounds, states, n - 1) && !StraysIn(r, states[n - 1], p);
      CycleOwnedIff(st, r.disk, r.first, r.faults, Entered(states[n - 1], r.start), states[n], p);
    }
  }

  /** Over every run what is known after a cycle is a file on the disk it scanned exactly if no path known to a
      running watcher has become something that is not walked. */
  lemma RunsOnDiskIff(st: Settings, rounds: seq<Round>, states: seq<State>, p: string)
    requires IsRun(st, rounds, states)
    ensures (forall i :: 0 <= i < |rounds| ==> (p in states[i + 1].known ==> p in rounds[i].disk.files))
       <==> (forall i :: 0 <= i < |rounds| ==> !Unwalked(rounds[i], states[i], p))
  {
    forall i | 0 <= i < |rounds|
      ensures (p in states[i + 1].known ==> p in rounds[i].disk.files) <==> !Unwalked(rounds[i], states[i], p)
    {
      var r := rounds[i];
      assert RunStep(st, rounds, states, i);
      CycleOwnedIff(st, r.disk, r.first, r.faults, Entered(states[i], r.start), states[i + 1], p);
    }
  }

  predicate Unwalked(r: Round, s: State, p: string) {
    var entered := Entered(s, r.start);
    entered.initialized && p in entered.known && p in r.disk.others
  }

  // ---------------------------------------------------------------- where agreement ends

  /** A known file that is not stamped after the last check keeps its rows through every later cycle, whatever
      goes wrong there: a file that changed between the scan of a cycle and its end keeps its old ones, and a
      file whose processing failed is not tried again. */
  lemma {:induction false} UnstampedStaysStale(st: Settings, d: Disk, rounds: seq<Round>, states: seq<State>,
                                               p: string, n: nat)
    requires |states| == |rounds| + 1 && n <= |rounds|
    requires p in d.files && p in states[0].known && states[0].initialized
    requires forall i :: 0 <= i < |rounds| ==>
               && rounds[i].disk == d && !Newer(d.files[p], states[i].lastCheck)
               && Cycle(st, d, rounds[i].first, rounds[i].faults, states[i], states[i + 1])
    ensures RowsOf(states[n].rows, p) == RowsOf(states[0].rows, p)
    ensures p in states[n].known && states[n].initialized
  {
    if n > 0 {
      UnstampedStaysStale(st, d, rounds, states, p, n - 1);
      var s, s', f := states[n - 1], states[n], rounds[n - 1].faults;
      assert Cycle(st, d, rounds[n - 1].first, f, s, states[n - 1 + 1]);
      var now :| Scanned(st, d, f, s, now, s');
      assert RowsOf(s'.rows, p)
          == RowsAfter(st, d, f, Changed(s.known, s.lastCheck, d), Deleted(s.known, d), p, RowsOf(s.rows, p));
    }
  }

  /** A file whose processing fails after its rows were deleted is known and has no rows. */
  lemma FailureLeavesNothing(st: Settings, d: Disk, f: ScanFaults, s: State, now: real, s': State, p: string)
    requires Scanned(st, d, f, s, now, s') && p in Ingested(st, d, f, Changed(s.known, s.lastCheck, d))
    requires !f.file(p).ingest.delete
    requires !Reaches(st.extract(p, d.files[p].content), st.tabular(p), st.config, f.file(p).ingest)
    ensures p in s'.known && !Indexed(s', p)
  {
    assert RowsOf(s'.rows, p)
        == RowsAfter(st, d, f, Changed(s.known, s.lastCheck, d), Deleted(s.known, d), p, RowsOf(s.rows, p));
  }

  /** The rows of a deleted file are gone exactly if dropping them did not fail or there were none; the file is
      forgotten in any case. */
  lemma DeletedGoneIff(st: Settings, d: Disk, f: ScanFaults, s: State, now: real, s': State, p: string)
    requires Scanned(st, d, f, s, now, s') && p in s.known && !Exists(d, p)
    ensures p !in s'.known && (!Indexed(s', p) <==> !f.delete(p) || !Indexed(s, p))
  {
    assert RowsOf(s'.rows, p)
        == RowsAfter(st, d, f, Changed(s.known, s.lastCheck, d), Deleted(s.known, d), p, RowsOf(s.rows, p));
  }

  /** Rows of a path that is neither known nor on the disk stay for good, restarts or not. */
  lemma {:induction false} OrphansStay(st: Settings, rounds: seq<Round>, states: seq<State>, p: string, n: nat)
    requires IsRun(st, rounds, states) && n <= |rounds| && p !in states[0].known
    requires forall i :: 0 <= i < |rounds| ==> p !in rounds[i].disk.files
    ensures p !in states[n].known && RowsOf(states[n].rows, p) == RowsOf(states[0].rows, p)
  {
    if n > 0 {
      OrphansStay(st, rounds, states, p, n - 1);
      assert RunStep(st, rounds, states, n - 1);
      OrphanCycled(st, rounds[n - 1], Entered(states[n - 1], rounds[n - 1].start), states[n], p);
    }
  }

  lemma OrphanCycled(st: Settings, r: Round, s: State, s': State, p: string)
    requires Cycle(st, r.disk, r.first, r.faults, s, s') && r.disk.files.Keys !! r.disk.others
    requires p !in s.known && p !in r.disk.files
    ensures p !in s'.known && RowsOf(s'.rows, p) == RowsOf(s.rows, p)
  {
    if s.initialized {
      var now :| Scanned(st, r.disk, r.faults, s, now, s');
      ScanKnown(st, r.disk, r.faults, s, now, s', p);
    } else {
      var now, mid, now' :| InitialScanned(st, r.disk, r.first, s, now, mid)
                            && Scanned(st, r.disk, r.faults, mid, now', s');
      InitialScanKnown(st, r.disk, r.first, s, now, mid, p);
      ScanKnown(st, r.disk, r.faults, mid, now', s', p);
    }
  }

  /** A file that no longer yields any text keeps the rows it had. */
  lemma EmptiedKeepsRows(st: Settings, d: Disk, f: ScanFaults, s: State, now: real, s': State, p: string)
    requires Scanned(st, d, f, s, now, s') && p in d.files && !Ingestible(st, p, d.files[p].content)
    ensures RowsOf(s'.rows, p) == RowsOf(s.rows, p)
  {
    assert RowsOf(s'.rows, p)
        == RowsAfter(st, d, f, Changed(s.known, s.lastCheck, d), Deleted(s.known, d), p, RowsOf(s.rows, p));
  }

  /** After a scan that drops what it should, what is indexed is on the disk exactly if nothing indexed before
      has become something that exists but is not walked. */
  lemma IndexedOnDiskIff(st: Settings, d: Disk, f: ScanFaults, s: State, now: real, s': State)
    requires Scanned(st, d, f, s, now, s') && d.files.Keys !! d.others && forall p :: !f.delete(p)
    requires forall p :: Indexed(s, p) ==> p in s.known
    ensures (forall p :: Indexed(s', p) ==> p in d.files) <==> (forall p :: Indexed(s, p) ==> p !in d.others)
  {
    forall p
      ensures p in d.others ==> RowsOf(s'.rows, p) == RowsOf(s.rows, p)
      ensures p !in d.files && p !in d.others ==> RowsOf(s'.rows, p) == []
    {
      assert RowsOf(s'.rows, p)
          == RowsAfter(st, d, f, Changed(s.known, s.lastCheck, d), Deleted(s.known, d), p, RowsOf(s.rows, p));
      assert Indexed(s, p) ==> p in s.known;
    }
    if p :| Indexed(s, p) && p in d.others {
      assert Indexed(s', p) && p !in d.files;
    } else {
      assert forall p :: Indexed(s', p) ==> p in d.files;
    }
  }

  /** A start forgets such a path but keeps its rows: what is indexed is known after the first scan exactly
      if no indexed path has become something that is not walked. */
  lemma IndexedKnownIff(st: Settings, d: Disk, f: ScanFaults, s: State, now: real, s': State)
    requires InitialScanned(st, d, f, s, now, s') && d.files.Keys !! d.others && forall p :: !f.delete(p)
    requires forall p :: Indexed(s, p) ==> p in s.known
    ensures (forall p :: Indexed(s', p) ==> p in s'.known) <==> (forall p :: Indexed(s, p) ==> p !in d.others)
  {
    var deleted := Deleted(s.known, d);
    forall p
      ensures p in d.others ==> RowsOf(s'.rows, p) == RowsOf(s.rows, p)
      ensures p !in d.files && p !in d.others ==> RowsOf(s'.rows, p) == []
    {
      assert RowsOf(s'.rows, p) == RowsAfter(st, d, f, Changed(s.known - deleted, s.lastCheck, d), deleted, p,
                                             RowsOf(s.rows, p));
      assert Indexed(s, p) ==> p in s.known;
    }
    if p :| Indexed(s, p) && p in d.others {
      assert Indexed(s', p) && p !in s'.known;
    } else {
      assert forall p :: Indexed(s', p) ==> p in s'.known;
    }
  }

  // ---------------------------------------------------------------- the watcher

  class LocalFileWatcher {
    const st: Settings
    const db: Database
    var knownFiles: map<string, real>       // with the modification time seen
    var lastCheckTime: real
    var initialized: bool

    ghost predicate Valid()
      reads this
    {
      db.embed == st.embed
    }

    ghost function View(): State
      reads this, db
    {
      State(knownFiles.Keys, lastCheckTime, initialized, db.documents)
    }

    constructor (st: Settings)
      ensures Valid() && fresh(db) && this.st == st
      ensures View() == State({}, 0.0, false, [])
    {
      db := new Database(st.embed);
      this.st := st;
      knownFiles, lastCheckTime, initialized := map[], 0.0, false;
    }

    /** Walk the directory and report what is new or newer than the last check. */
    method ScanDirectory(d: Disk, walk: seq<string>) returns (changed: seq<string>)
      requires IsWalk(walk, d)
      ensures Elements(changed) == Changed(knownFiles.Keys, lastCheckTime, d) && NoRepeats(changed)
      ensures forall p :: p in changed ==> p in d.files
      ensures forall p :: p in d.files ==>
                (p in changed <==> || p !in knownFiles
                                   || d.files[p].mtime > lastCheckTime || d.files[p].ctime > lastCheckTime)
    {
      changed := [];
      for i := 0 to |walk|
        invariant Elements(changed) == Changed(knownFiles.Keys, lastCheckTime, d) * Elements(walk[..i])
        invariant NoRepeats(changed)
      {
        var path := walk[i];
        assert path in Elements(walk);
        NextInWalk(walk, i);
        if path !in knownFiles || Newer(d.files[path], lastCheckTime) {
          ElementsSnoc(changed, path);
          changed := changed + [path];
        }
      }
      TakeAll(walk);
      forall p | p in d.files
        ensures p in changed <==> || p !in knownFiles
                                  || d.files[p].mtime > lastCheckTime || d.files[p].ctime > lastCheckTime
      {
        assert p in changed <==> p in Elements(changed);
      }
      assert forall p :: p in changed ==> p in Elements(changed);
    }

    method CheckDeleted(d: Disk) returns (deleted: set<string>)
      ensures deleted == Deleted(knownFiles.Keys, d)
      ensures forall p :: p in deleted <==> p in knownFiles && p !in d.files && p !in d.others
    {
      deleted := set p | p in knownFiles.Keys && !Exists(d, p);
    }

    /** Replace the rows of one file, if it can be read and yields any text. */
    method ProcessFile(d: Disk, p: string, f: ScanFaults)
      requires Valid() && p in d.files
      modifies this`knownFiles, db
      ensures knownFiles.Keys == old(knownFiles).Keys + Ingested(st, d, f, {p})
      ensures var content := d.files[p].content;
              if st.supports(p) && content != "" && st.extract(p, content) != "" && !f.file(p).read then p in knownFiles
              else knownFiles == old(knownFiles) && db.documents == old(db.documents)
      ensures RowsFollow(st, d, f, {p}, {}, old(db.documents), db.documents)
    {
      var info := d.files[p];
      if !st.supports(p) || f.file(p).read || info.content == "" {
        return;
      }
      var text := st.extract(p, info.content);
      if text == "" {
        return;
      }
      ghost var before := db.documents;
      var success := db.ProcessFileForRag(text, p, st.tabular(p), st.config, f.file(p).ingest);
      knownFiles := knownFiles[p := info.mtime];
      ProcessedRows(st, d, f, p, before, db.documents);
    }

    method ProcessAll(d: Disk, changed: seq<string>, f: ScanFaults)
      requires Valid() && NoRepeats(changed) && Elements(changed) <= d.files.Keys
      modifies this`knownFiles, db
      ensures knownFiles.Keys == old(knownFiles).Keys + Ingested(st, d, f, Elements(changed))
      ensures RowsFollow(st, d, f, Elements(changed), {}, old(db.documents), db.documents)
    {
      for i := 0 to |changed|
        invariant knownFiles.Keys == old(knownFiles).Keys + Ingested(st, d, f, Elements(changed[..i]))
        invariant RowsFollow(st, d, f, Elements(changed[..i]), {}, old(db.documents), db.documents)
      {
        ghost var before := db.documents;
        assert changed[i] in Elements(changed);
        ProcessFile(d, changed[i], f);
        NextInWalk(changed, i);
        FollowMore(st, d, f, Elements(changed[..i]), changed[i], old(db.documents), before, db.documents);
      }
      TakeAll(changed);
    }

    /** Forget the deleted files and drop their rows. */
    method DeleteAll(gone: set<string>, f: ScanFaults)
      modifies this`knownFiles, db
      ensures knownFiles.Keys == old(knownFiles).Keys - gone
      ensures RowsDropped(old(db.documents), db.documents, gone, f)
    {
      var left := gone;
      while left != {}
        invariant left <= gone
        invariant knownFiles.Keys == old(knownFiles).Keys - (gone - left)
        invariant RowsDropped(old(db.documents), db.documents, gone - left, f)
      {
        var id :| id in left;
        ghost var before := db.documents;
        db.DeleteDocumentByFileId(id, f.delete(id));
        DropMore(old(db.documents), before, db.documents, gone - left, id, f);
        knownFiles := knownFiles - {id};
        left := left - {id};
        assert gone - left == gone - (left + {id}) + {id};
      }
    }

    method InitialScan(d: Disk, walk: seq<string>, now: real, f: ScanFaults)
      requires Valid() && IsWalk(walk, d)
      modifies this, db
      ensures Valid() && InitialScanned(st, d, f, old(View()), now, View())
    {
      var deleted := CheckDeleted(d);
      DeleteAll(deleted, f);
      ghost var middle := db.documents;
      var changed := ScanDirectory(d, walk);
      knownFiles := map p | p in d.files :: d.files[p].mtime;
      ProcessAll(d, changed, f);
      lastCheckTime, initialized := now, true;
      FollowDropped(st, d, f, Elements(changed), deleted, old(db.documents), middle, db.documents);
    }

    /** An incremental scan. */
    method Scan(d: Disk, walk: seq<string>, now: real, f: ScanFaults)
      requires Valid() && IsWalk(walk, d)
      modifies this, db
      ensures Valid() && Scanned(st, d, f, old(View()), now, View()) && lastCheckTime == now
    {
      var changed := ScanDirectory(d, walk);
      var deleted := CheckDeleted(d);
      ProcessAll(d, changed, f);
      ghost var processed := db.documents;
      DeleteAll(deleted, f);
      lastCheckTime := now;
      FollowThenDrop(st, d, f, Elements(changed), deleted, old(db.documents), processed, db.documents);
    }

    /** One check; the clock is read at the end of the first scan and at the end of the check. */
    method CheckForChanges(d: Disk, walk: seq<string>, now: real, now': real, first: ScanFaults, f: ScanFaults)
      requires Valid() && IsWalk(walk, d)
      modifies this, db
      ensures Valid() && Cycle(st, d, first, f, old(View()), View()) && lastCheckTime == now'
      ensures old(initialized) ==> forall p :: p in old(knownFiles) && p in d.files ==>
                && (d.files[p].mtime <= old(lastCheckTime) && d.files[p].ctime <= old(lastCheckTime) ==>
                      RowsOf(db.documents, p) == RowsOf(old(db.documents), p))
                && ((d.files[p].mtime > old(lastCheckTime) || d.files[p].ctime > old(lastCheckTime))
                    && Ingestible(st, p, d.files[p].content) && FaultlessAt(f, p) ==>
                      RowsOf(db.documents, p) == Current(st, p, d.files[p].content))
    {
      ghost var start := View();
      if !initialized {
        InitialScan(d, walk, now, first);
      }
      ghost var mid := View();
      assert !start.initialized ==> InitialScanned(st, d, first, start, now, mid);
      Scan(d, walk, now', f);
      assert Scanned(st, d, f, mid, now', View());
      KnownFiles(st, d, first, f, start, View());
    }
  }

  lemma KnownFiles(st: Settings, d: Disk, first: ScanFaults, f: ScanFaults, s: State, s': State)
    requires Cycle(st, d, first, f, s, s')
    ensures s.initialized ==> forall p :: p in s.known && p in d.files ==>
              && (d.files[p].mtime <= s.lastCheck && d.files[p].ctime <= s.lastCheck ==>
                    RowsOf(s'.rows, p) == RowsOf(s.rows, p))
              && ((d.files[p].mtime > s.lastCheck || d.files[p].ctime > s.lastCheck)
                  && Ingestible(st, p, d.files[p].content) && FaultlessAt(f, p) ==>
                    RowsOf(s'.rows, p) == Current(st, p, d.files[p].content))
  {
    if s.initialized {
      forall p | p in s.known && p in d.files
        ensures d.files[p].mtime <= s.lastCheck && d.files[p].ctime <= s.lastCheck ==>
                  RowsOf(s'.rows, p) == RowsOf(s.rows, p)
        ensures (d.files[p].mtime > s.lastCheck || d.files[p].ctime > s.lastCheck)
                && Ingestible(st, p, d.files[p].content) && FaultlessAt(f, p) ==>
                  RowsOf(s'.rows, p) == Current(st, p, d.files[p].content)
      {
        CycleOfKnown(st, d, first, f, s, s', p);
      }
    }
  }

  function Elements<T>(s: seq<T>): set<T> {
    set x | x in s
  }

  ghost predicate NoRepeats<T(!new)>(s: seq<T>) {
    forall i, j :: 0 <= i < j < |s| ==> s[i] != s[j]
  }

  /** A walk finds every file once, in some order. */
  ghost predicate IsWalk(walk: seq<string>, d: Disk) {
    Elements(walk) == d.files.Keys && NoRepeats(walk)
  }

  lemma ElementsSnoc<T>(s: seq<T>, x: T)
    ensures Elements(s + [x]) == Elements(s) + {x}
  {
  }

  lemma NextInWalk<T(!new)>(walk: seq<T>, i: nat)
    requires i < |walk| && NoRepeats(walk)
    ensures walk[i] !in Elements(walk[..i]) && Elements(walk[..i + 1]) == Elements(walk[..i]) + {walk[i]}
  {
    TakeSnoc(walk, i);
    ElementsSnoc(walk[..i], walk[i]);
  }

  ghost predicate RowsDropped(rows: seq<IndexRow>, rows': seq<IndexRow>, gone: set<string>, f: ScanFaults) {
    forall p :: RowsOf(rows', p) == if p in gone && !f.delete(p) then [] else RowsOf(rows, p)
  }

  lemma DropMore(rows: seq<IndexRow>, mid: seq<IndexRow>, rows': seq<IndexRow>, gone: set<string>, id: string,
                 f: ScanFaults)
    requires RowsDropped(rows, mid, gone, f) && rows' == if f.delete(id) then mid else WithoutFile(mid, id)
    ensures RowsDropped(rows, rows', gone + {id}, f)
  {
    forall p ensures RowsOf(rows', p) == if p in gone + {id} && !f.delete(p) then [] else RowsOf(rows, p) {
      RowsOfWithout(mid, id, p);
    }
  }

  lemma ProcessedRows(st: Settings, d: Disk, f: ScanFaults, p: string, rows: seq<IndexRow>, rows': seq<IndexRow>)
    requires p in d.files && Ingestible(st, p, d.files[p].content) && !f.file(p).read
    requires var ff, text := f.file(p).ingest, st.extract(p, d.files[p].content);
             rows' == (if ff.delete then rows else WithoutFile(rows, p))
                      + if Reaches(text, st.tabular(p), st.config, ff) then
                          Stored(ChunkText(text, st.config.chunkSize, st.config.overlap).value, p, st.embed, ff.insert)
                        else []
    ensures RowsFollow(st, d, f, {p}, {}, rows, rows')
  {
    var ff, text := f.file(p).ingest, st.extract(p, d.files[p].content);
    var chunks := if Reaches(text, st.tabular(p), st.config, ff) then
                    ChunkText(text, st.config.chunkSize, st.config.overlap).value
                  else [];
    forall q ensures RowsOf(rows', q) == RowsAfter(st, d, f, {p}, {}, q, RowsOf(rows, q)) {
      ReplacedRows(rows, chunks, p, st.embed, ff, q);
    }
  }

  lemma ReplacedRows(rows: seq<IndexRow>, chunks: seq<string>, id: string, embed: string -> Embedding, f: Faults,
                     q: string)
    ensures var stored := Stored(chunks, id, embed, f.insert);
            RowsOf((if f.delete then rows else WithoutFile(rows, id)) + stored, q)
            == if q == id then (if f.delete then RowsOf(rows, id) else []) + stored else RowsOf(rows, q)
  {
    var stored := Stored(chunks, id, embed, f.insert);
    if f.delete {
      RowsOfAppend(rows, stored, q);
      if q == id {
        StoredOwn(chunks, id, embed, f.insert);
      } else {
        StoredElsewhere(chunks, id, embed, f.insert, q);
        AppendEmpty(RowsOf(rows, q));
      }
    } else {
      Replaced(rows, chunks, id, embed, f.insert, q);
      AppendEmpty(stored);
    }
  }

  lemma FollowMore(st: Settings, d: Disk, f: ScanFaults, done: set<string>, p: string, rows: seq<IndexRow>,
                   mid: seq<IndexRow>, rows': seq<IndexRow>)
    requires RowsFollow(st, d, f, done, {}, rows, mid) && RowsFollow(st, d, f, {p}, {}, mid, rows') && p !in done
    ensures RowsFollow(st, d, f, done + {p}, {}, rows, rows')
  {
    forall q ensures RowsOf(rows', q) == RowsAfter(st, d, f, done + {p}, {}, q, RowsOf(rows, q)) {
      assert RowsOf(mid, q) == RowsAfter(st, d, f, done, {}, q, RowsOf(rows, q));
      assert RowsOf(rows', q) == RowsAfter(st, d, f, {p}, {}, q, RowsOf(mid, q));
    }
  }

  lemma FollowDropped(st: Settings, d: Disk, f: ScanFaults, changed: set<string>, deleted: set<string>,
                      rows: seq<IndexRow>, mid: seq<IndexRow>, rows': seq<IndexRow>)
    requires RowsDropped(rows, mid, deleted, f)
    requires RowsFollow(st, d, f, changed, {}, mid, rows')
    requires forall p :: p in deleted ==> p !in d.files
    ensures RowsFollow(st, d, f, changed, deleted, rows, rows')
  {
    forall q ensures RowsOf(rows', q) == RowsAfter(st, d, f, changed, deleted, q, RowsOf(rows, q)) {
      assert RowsOf(rows', q) == RowsAfter(st, d, f, changed, {}, q, RowsOf(mid, q));
    }
  }

  lemma FollowThenDrop(st: Settings, d: Disk, f: ScanFaults, changed: set<string>, deleted: set<string>,
                       rows: seq<IndexRow>, mid: seq<IndexRow>, rows': seq<IndexRow>)
    requires RowsFollow(st, d, f, changed, {}, rows, mid)
    requires RowsDropped(mid, rows', deleted, f)
    requires forall p :: p in deleted ==> p !in d.files
    ensures RowsFollow(st, d, f, changed, deleted, rows, rows')
  {
    forall q ensures RowsOf(rows', q) == RowsAfter(st, d, f, changed, deleted, q, RowsOf(rows, q)) {
      assert RowsOf(mid, q) == RowsAfter(st, d, f, changed, {}, q, RowsOf(rows, q));
    }
  }
}
