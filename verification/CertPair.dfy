/** The client certificate transaction of internal/certrenew: a pair (certificate, key)
    is replaced through six files and a marker, and `RecoverPair` must make sense of
    whatever a crash left behind, including a crash of an earlier recovery. */
module CertPair {

  datatype Slot =
    | CertCurrent | KeyCurrent
    | CertNext | KeyNext
    | CertPrevious | KeyPrevious
    | Marker

  /** File contents as `tls.X509KeyPair` sees them. A private key is determined by its
      public half; a certificate also carries a serial number. `Blank` is an empty file. */
  datatype Material =
    | Certificate(publicKey: int, serial: int)
    | PrivateKey(publicKey: int)
    | Junk(text: int)
    | Blank

  datatype Pair = Pair(cert: Material, key: Material)

  type Disk = map<Slot, Material>

  predicate Matches(p: Pair) {
    p.cert.Certificate? && p.key.PrivateKey? && p.cert.publicKey == p.key.publicKey
  }

  /** A missing file reads as an empty one. */
  function Read(d: Disk, slot: Slot): Material {
    if slot in d then d[slot] else Blank
  }

  function Current(d: Disk): Pair {
    Pair(Read(d, CertCurrent), Read(d, KeyCurrent))
  }

  predicate Loaded(d: Disk) {
    Matches(Current(d))
  }

  /** The combinations recovery tries, in order, once the current pair does not load. */
  function Candidates(d: Disk): seq<Pair> {
    [ Pair(Read(d, CertCurrent), Read(d, KeyPrevious)),
      Pair(Read(d, CertPrevious), Read(d, KeyPrevious)),
      Pair(Read(d, CertNext), Read(d, KeyCurrent)),
      Pair(Read(d, CertNext), Read(d, KeyNext)),
      Pair(Read(d, CertPrevious), Read(d, KeyCurrent)) ]
  }

  predicate AllBlank(d: Disk) {
    forall s :: s in d && s != Marker ==> d[s] == Blank
  }

  datatype Verdict = Installs(pair: Pair) | Untouched | Stuck

  function FirstMatch(candidates: seq<Pair>): (r: Verdict)
    ensures r.Installs? ==> r.pair in candidates && Matches(r.pair)
    ensures r != Untouched
    ensures r == Stuck <==> forall p :: p in candidates ==> !Matches(p)
  {
    if candidates == [] then Stuck
    else if Matches(candidates[0]) then Installs(candidates[0])
    else
      var rest := FirstMatch(candidates[1..]);
      assert candidates == [candidates[0]] + candidates[1..];
      rest
  }

  /** The pair that a completed recovery of `d` leaves installed, if any. */
  function Outcome(d: Disk): Verdict {
    if Loaded(d) then Installs(Current(d))
    else
      var choice := FirstMatch(Candidates(d));
      if choice.Stuck? && AllBlank(d) then Untouched else choice
  }

  /** The clean end state: the pair and nothing else. */
  function Installed(p: Pair): Disk {
    map[CertCurrent := p.cert, KeyCurrent := p.key]
  }

  predicate IsArtifact(s: Slot) {
    s != CertCurrent && s != KeyCurrent
  }

  /** `after` is `before` with some transaction files removed. */
  ghost predicate Pruned(before: Disk, after: Disk) {
    && (forall s :: s in after ==> s in before && after[s] == before[s])
    && (forall s :: s in before && !IsArtifact(s) ==> s in after)
  }

  function WithKey(d: Disk, p: Pair): Disk { d[KeyCurrent := p.key] }

  function WithPair(d: Disk, p: Pair): Disk { WithKey(d, p)[CertCurrent := p.cert] }

  /** The disks at which a recovery that started from `d` can be interrupted. */
  ghost predicate RecoveryReaches(d: Disk, d': Disk) {
    || d' == d
    || (Outcome(d).Installs?
        && (d' == WithKey(d, Outcome(d).pair) || Pruned(WithPair(d, Outcome(d).pair), d')))
  }

  /** The one shape of disk on which an interrupted recovery can change its mind: it is
      about to install the staged pair, and the staged key also fits a different
      certificate that is still current. */
  predicate Ambiguous(d: Disk) {
    && !Loaded(d)
    && (forall i :: 0 <= i < 3 ==> !Matches(Candidates(d)[i]))
    && Matches(Candidates(d)[3])
    && Matches(Pair(Read(d, CertCurrent), Read(d, KeyNext)))
    && Read(d, CertCurrent) != Read(d, CertNext)
  }

  lemma FirstMatchAt(candidates: seq<Pair>, i: nat)
    requires i < |candidates| && Matches(candidates[i])
    requires forall j :: 0 <= j < i ==> !Matches(candidates[j])
    ensures FirstMatch(candidates) == Installs(candidates[i])
  {
    if i > 0 {
      FirstMatchAt(candidates[1..], i - 1);
    }
  }

  /** Unrolled reading of the candidates. */
  lemma OutcomeByCandidates(d: Disk)
    ensures Outcome(d) ==
            if Loaded(d) then Installs(Current(d))
            else if Matches(Candidates(d)[0]) then Installs(Candidates(d)[0])
            else if Matches(Candidates(d)[1]) then Installs(Candidates(d)[1])
            else if Matches(Candidates(d)[2]) then Installs(Candidates(d)[2])
            else if Matches(Candidates(d)[3]) then Installs(Candidates(d)[3])
            else if Matches(Candidates(d)[4]) then Installs(Candidates(d)[4])
            else if AllBlank(d) then Untouched else Stuck
  {
    var c := Candidates(d);
    if !Loaded(d) {
      if Matches(c[0]) { FirstMatchAt(c, 0); }
      else if Matches(c[1]) { FirstMatchAt(c, 1); }
      else if Matches(c[2]) { FirstMatchAt(c, 2); }
      else if Matches(c[3]) { FirstMatchAt(c, 3); }
      else if Matches(c[4]) { FirstMatchAt(c, 4); }
      else {
        assert forall p :: p in c ==> p == c[0] || p == c[1] || p == c[2] || p == c[3] || p == c[4];
      }
    }
  }

  /** What recovery is headed for: the current pair if it loads, otherwise the first of these combinations that
      fits; without any, it does nothing if all files are missing or empty, and is stuck if not. */
  lemma OutcomeByCases(d: Disk)
    ensures var halves := (cert: Slot, key: Slot) => Pair(Read(d, cert), Read(d, key));
            Outcome(d) ==
              if Matches(halves(CertCurrent, KeyCurrent)) then Installs(halves(CertCurrent, KeyCurrent))
              else if Matches(halves(CertCurrent, KeyPrevious)) then Installs(halves(CertCurrent, KeyPrevious))
              else if Matches(halves(CertPrevious, KeyPrevious)) then Installs(halves(CertPrevious, KeyPrevious))
              else if Matches(halves(CertNext, KeyCurrent)) then Installs(halves(CertNext, KeyCurrent))
              else if Matches(halves(CertNext, KeyNext)) then Installs(halves(CertNext, KeyNext))
              else if Matches(halves(CertPrevious, KeyCurrent)) then Installs(halves(CertPrevious, KeyCurrent))
              else if forall s :: s in d && s != Marker ==> d[s] == Blank then Untouched
              else Stuck
  {
    OutcomeByCandidates(d);
  }

  /** The restored key alone already commits recovery to the same pair, except exactly
      on ambiguous disks. */
  lemma KeyWriteKeepsOutcome(d: Disk)
    requires Outcome(d).Installs?
    ensures Outcome(WithKey(d, Outcome(d).pair)) == Outcome(d) <==> !Ambiguous(d)
    ensures !Ambiguous(d) ==> !Ambiguous(WithKey(d, Outcome(d).pair))
  {
    OutcomeByCandidates(d);
    var d' := WithKey(d, Outcome(d).pair);
    OutcomeByCandidates(d');
    assert Read(d', KeyCurrent) == Outcome(d).pair.key;
    assert forall s :: s != KeyCurrent ==> Read(d', s) == Read(d, s);
  }

  /** Interrupting a recovery anywhere leaves a disk whose recovery has the same outcome. */
  lemma RecoveryKeepsOutcome(d: Disk, d': Disk)
    requires RecoveryReaches(d, d') && !Ambiguous(d)
    ensures Outcome(d') == Outcome(d) && !Ambiguous(d')
  {
    if d' != d {
      var p := Outcome(d).pair;
      OutcomeByCandidates(d);
      if d' == WithKey(d, p) {
        KeyWriteKeepsOutcome(d);
      } else {
        assert Current(d') == p;
      }
    }
  }

  /** Any number of interrupted recoveries, one after another. */
  lemma {:induction false} InterruptedRecoveries(run: seq<Disk>)
    requires |run| > 0 && !Ambiguous(run[0])
    requires forall i :: 0 <= i < |run| - 1 ==> RecoveryReaches(run[i], run[i + 1])
    ensures Outcome(run[|run| - 1]) == Outcome(run[0]) && !Ambiguous(run[|run| - 1])
  {
    if |run| > 1 {
      RecoveryKeepsOutcome(run[0], run[1]);
      InterruptedRecoveries(run[1..]);
    }
  }

  lemma AmbiguousDiskExists()
    ensures exists d :: Ambiguous(d) && Outcome(WithKey(d, Outcome(d).pair)) != Outcome(d)
  {
    var d: Disk := map[CertCurrent := Certificate(1, 1), CertNext := Certificate(1, 2), KeyNext := PrivateKey(1)];
    assert Current(d) == Pair(Certificate(1, 1), Blank);
    assert Read(d, KeyPrevious) == Blank && Read(d, CertPrevious) == Blank;
    var c := Candidates(d);
    assert c[0] == Pair(Certificate(1, 1), Blank) && c[1] == Pair(Blank, Blank);
    assert c[2] == Pair(Certificate(1, 2), Blank);
    assert c[3] == Pair(Certificate(1, 2), PrivateKey(1));
    FirstMatchAt(c, 3);
    hide FirstMatch, Candidates;
    KeyWriteKeepsOutcome(d);
  }

  /** Where a replacement of the loaded pair `o` by `n` can be interrupted. */
  ghost predicate Replacing(o: Pair, n: Pair, d: Disk) {
    && !Ambiguous(d)
    && Outcome(d) == Installs(if Read(d, CertCurrent) == n.cert then n else o)
  }

  /** Where a first installation of `n` can be interrupted: recovery completes it as soon
      as both halves are on disk and is stuck while only one of them is. */
  ghost predicate FirstInstalling(n: Pair, d: Disk) {
    var cert := Read(d, CertNext) == n.cert || Read(d, CertCurrent) == n.cert;
    var key := Read(d, KeyNext) == n.key || Read(d, KeyCurrent) == n.key;
    && !Ambiguous(d)
    && Outcome(d) == if cert && key then Installs(n) else if cert || key then Stuck else Untouched
  }

  /** From a replacement interrupted at any point, after any number of interrupted
      recoveries, recovery is headed for exactly the old or exactly the new pair, and for the
      new one precisely if the certificate had been renamed into place. */
  lemma CrashSafeReplacement(o: Pair, n: Pair, run: seq<Disk>)
    requires |run| > 0 && Replacing(o, n, run[0])
    requires forall i :: 0 <= i < |run| - 1 ==> RecoveryReaches(run[i], run[i + 1])
    ensures Outcome(run[|run| - 1]) == Installs(if Read(run[0], CertCurrent) == n.cert then n else o)
  {
    InterruptedRecoveries(run);
  }

  /** Everything a replacement of `o` by `n` can leave on disk, slot by slot. */
  ghost predicate ReplacementShape(o: Pair, n: Pair, d: Disk) {
    && Read(d, KeyPrevious) in {Blank, o.key} && Read(d, CertPrevious) in {Blank, o.cert}
    && Read(d, KeyNext) in {Blank, n.key} && Read(d, CertNext) in {Blank, n.cert}
    && (|| Current(d) == o
        || Current(d) == n
        || (Current(d) == Pair(o.cert, Blank) && Read(d, KeyPrevious) == o.key)
        || (Current(d).cert == Blank && Current(d).key in {Blank, o.key, n.key}
            && Read(d, KeyPrevious) == o.key && Read(d, CertPrevious) == o.cert))
  }

  lemma ReplacementShapeIsSafe(o: Pair, n: Pair, d: Disk)
    requires Matches(o) && Matches(n) && ReplacementShape(o, n, d)
    ensures Replacing(o, n, d)
  {
    OutcomeByCandidates(d);
  }

  lemma RecoveryKeepsReplacementShape(o: Pair, n: Pair, d: Disk, d': Disk)
    requires Matches(o) && Matches(n) && ReplacementShape(o, n, d) && RecoveryReaches(d, d')
    ensures ReplacementShape(o, n, d')
  {
    ReplacementShapeIsSafe(o, n, d);
    hide Outcome, Ambiguous;
    var p := Outcome(d).pair;
    if d' == WithKey(d, p) {
      assert forall s :: Read(d', s) == if s == KeyCurrent then p.key else Read(d, s);
    } else if d' != d {
      assert Current(d') == p;
      assert forall s :: IsArtifact(s) ==> Read(d', s) in {Blank, Read(d, s)};
    }
  }

  ghost predicate FirstInstallShape(n: Pair, d: Disk) {
    && Read(d, KeyPrevious) == Blank && Read(d, CertPrevious) == Blank
    && Read(d, KeyNext) in {Blank, n.key} && Read(d, CertNext) in {Blank, n.cert}
    && Current(d) in {Pair(Blank, Blank), Pair(Blank, n.key), n}
  }

  lemma FirstInstallShapeIsSafe(n: Pair, d: Disk)
    requires Matches(n) && FirstInstallShape(n, d)
    ensures FirstInstalling(n, d)
  {
    OutcomeByCandidates(d);
    if Outcome(d) == Untouched {
      assert forall s :: Read(d, s) == if s in d then d[s] else Blank;
    } else if Outcome(d) == Stuck {
      assert Read(d, KeyNext) != Blank || Read(d, CertNext) != Blank || Read(d, KeyCurrent) != Blank;
    }
  }

  lemma RecoveryKeepsFirstInstall(n: Pair, d: Disk, d': Disk)
    requires Matches(n) && FirstInstallShape(n, d) && RecoveryReaches(d, d')
    ensures FirstInstallShape(n, d')
  {
    FirstInstallShapeIsSafe(n, d);
    OutcomeByCandidates(d);
  }

  /** The shape a transaction that began on `start` keeps. */
  ghost predicate Shaped(start: Disk, n: Pair, d: Disk) {
    && (Outcome(start).Installs? ==> ReplacementShape(Outcome(start).pair, n, d))
    && (Outcome(start).Untouched? ==> FirstInstallShape(n, d))
  }

  /** What a crash of a transaction that began on `start` may leave behind. */
  ghost predicate Safe(start: Disk, n: Pair, d: Disk) {
    && (Loaded(start) ==> Replacing(Current(start), n, d))
    && (Outcome(start).Installs? && !Ambiguous(start) ==>
          !Ambiguous(d) && Outcome(d) in {Outcome(start), Installs(n)})
    && (Outcome(start).Untouched? ==> FirstInstalling(n, d))
  }

  /** Everything a transaction for `n` that began on `start` can leave on disk, wherever it is interrupted:
      it first recovers, and only if that works does it stage and commit. */
  ghost predicate TransactionReaches(start: Disk, n: Pair, d: Disk) {
    RecoveryReaches(start, d) || (Outcome(start) != Stuck && Shaped(start, n, d))
  }

  lemma InstalledIsLoaded(p: Pair)
    requires Matches(p)
    ensures Loaded(Installed(p))
  {
  }

  lemma LoadedInstalls(d: Disk)
    ensures Loaded(d) ==> Outcome(d) == Installs(Current(d))
  {
  }

  lemma OutcomeMatches(d: Disk)
    ensures Outcome(d).Installs? ==> Matches(Outcome(d).pair)
  {
  }

  lemma ShapedIsSafe(start: Disk, n: Pair, d: Disk)
    requires Matches(n) && Shaped(start, n, d)
    ensures Safe(start, n, d)
  {
    OutcomeMatches(start);
    if Outcome(start).Installs? {
      ReplacementShapeIsSafe(Outcome(start).pair, n, d);
    } else if Outcome(start).Untouched? {
      FirstInstallShapeIsSafe(n, d);
    }
  }

  lemma RecoveryKeepsShape(start: Disk, n: Pair, d: Disk, d': Disk)
    requires Matches(n) && Outcome(start) != Stuck && Shaped(start, n, d) && RecoveryReaches(d, d')
    ensures Shaped(start, n, d')
  {
    OutcomeMatches(start);
    if Outcome(start).Installs? {
      RecoveryKeepsReplacementShape(Outcome(start).pair, n, d, d');
    } else {
      RecoveryKeepsFirstInstall(n, d, d');
    }
  }

  /** A recovery, complete or not, never loses the pair it is headed for. */
  lemma RecoveryKeepsPair(d: Disk, d': Disk)
    requires Outcome(d).Installs? && RecoveryReaches(d, d')
    ensures Outcome(d').Installs?
  {
    OutcomeMatches(d);
    var p := Outcome(d).pair;
    if d' == WithKey(d, p) {
      OutcomeByCandidates(d);
      OutcomeByCandidates(d');
    } else if d' != d {
      assert Current(d') == p;
    }
  }

  /** Nor does a transaction. */
  lemma TransactionKeepsPair(start: Disk, n: Pair, d: Disk)
    requires Matches(n) && Outcome(start).Installs? && TransactionReaches(start, n, d)
    ensures Outcome(d).Installs?
  {
    hide RecoveryReaches;
    OutcomeMatches(start);
    if RecoveryReaches(start, d) {
      RecoveryKeepsPair(start, d);
    } else {
      ReplacementShapeIsSafe(Outcome(start).pair, n, d);
    }
  }

  /** The recovery that precedes a transaction is safe by itself. */
  lemma InitialRecoveryIsSafe(start: Disk, n: Pair, d: Disk)
    requires Matches(n) && RecoveryReaches(start, d)
    ensures Safe(start, n, d)
  {
    OutcomeByCandidates(start);
    if !Ambiguous(start) {
      RecoveryKeepsOutcome(start, d);
    }
  }

  /** Both new halves and the marker are on disk, nothing has been renamed yet. */
  ghost predicate Staged(start: Disk, n: Pair, d: Disk) {
    && (Outcome(start).Installs? ==> Matches(Outcome(start).pair) && Current(d) == Outcome(start).pair)
    && (Outcome(start).Untouched? ==> Current(d) == Pair(Blank, Blank))
    && Read(d, KeyPrevious) == Blank && Read(d, CertPrevious) == Blank
    && Read(d, KeyNext) == n.key && Read(d, CertNext) == n.cert
  }

  function BackedUp(d: Disk, current: Slot, previous: Slot): Disk {
    if current in d then (d - {current})[previous := d[current]] else d - {previous}
  }

  function Renamed(d: Disk, source: Slot, target: Slot): Disk {
    if source in d then (d - {source})[target := d[source]] else d
  }

  lemma ReadBackedUp(d: Disk, current: Slot, previous: Slot)
    requires current != previous
    ensures forall s :: Read(BackedUp(d, current, previous), s) ==
                        if s == current then Blank else if s == previous then Read(d, current) else Read(d, s)
    ensures forall s :: Read(d - {previous}, s) == if s == previous then Blank else Read(d, s)
  {
  }

  lemma ReadRenamed(d: Disk, source: Slot, target: Slot)
    requires source != target && source in d
    ensures forall s :: Read(Renamed(d, source, target), s) ==
                        if s == source then Blank else if s == target then Read(d, source) else Read(d, s)
  {
  }

  /** The disks of the commit, in order: key backed up, certificate backed up, key renamed,
      certificate renamed. */
  function CommitDisk(d: Disk, step: nat): Disk {
    if step == 0 then d
    else if step == 1 then BackedUp(d, KeyCurrent, KeyPrevious)
    else if step == 2 then BackedUp(CommitDisk(d, 1), CertCurrent, CertPrevious)
    else if step == 3 then Renamed(CommitDisk(d, 2), KeyNext, KeyCurrent)
    else Renamed(CommitDisk(d, 3), CertNext, CertCurrent)
  }

  lemma CommitReads(d: Disk, step: nat)
    requires step <= 4
    requires KeyNext in d && CertNext in d && Read(d, KeyPrevious) == Blank && Read(d, CertPrevious) == Blank
    ensures KeyNext in CommitDisk(d, if step < 2 then step else 2)
    ensures CertNext in CommitDisk(d, if step < 3 then step else 3)
    ensures Read(CommitDisk(d, step), KeyPrevious) == if step >= 1 then Read(d, KeyCurrent) else Blank
    ensures Read(CommitDisk(d, step), CertPrevious) == if step >= 2 then Read(d, CertCurrent) else Blank
    ensures Read(CommitDisk(d, step), KeyCurrent) ==
            if step == 0 then Read(d, KeyCurrent) else if step < 3 then Blank else Read(d, KeyNext)
    ensures Read(CommitDisk(d, step), CertCurrent) ==
            if step < 2 then Read(d, CertCurrent) else if step < 4 then Blank else Read(d, CertNext)
    ensures Read(CommitDisk(d, step), KeyNext) == if step < 3 then Read(d, KeyNext) else Blank
    ensures Read(CommitDisk(d, step), CertNext) == if step < 4 then Read(d, CertNext) else Blank
  {
    if step > 0 {
      CommitReads(d, step - 1);
      var e := CommitDisk(d, step - 1);
      if step == 1 { ReadBackedUp(e, KeyCurrent, KeyPrevious); }
      else if step == 2 { ReadBackedUp(e, CertCurrent, CertPrevious); }
      else if step == 3 { ReadRenamed(e, KeyNext, KeyCurrent); }
      else { ReadRenamed(e, CertNext, CertCurrent); }
    }
  }

  lemma CommitIsShaped(start: Disk, n: Pair, d: Disk, step: nat)
    requires step <= 4 && Matches(n) && Outcome(start) != Stuck && Staged(start, n, d)
    ensures Shaped(start, n, CommitDisk(d, step))
    ensures Shaped(start, n, CommitDisk(d, step) - {KeyPrevious}) || step > 0
    ensures Shaped(start, n, CommitDisk(d, step) - {CertPrevious}) || step > 1
    ensures step == 4 ==> Current(CommitDisk(d, 4)) == n
    ensures step == 2 ==> KeyNext in CommitDisk(d, 2)
    ensures step == 3 ==> CertNext in CommitDisk(d, 3)
  {
    CommitReads(d, step);
    var e := CommitDisk(d, step);
    assert forall s :: Read(e - {KeyPrevious}, s) == if s == KeyPrevious then Blank else Read(e, s);
    assert forall s :: Read(e - {CertPrevious}, s) == if s == CertPrevious then Blank else Read(e, s);
  }

  /** Where a transaction starts: a cleanly installed pair, or nothing at all. */
  ghost predicate Ready(start: Disk, d: Disk) {
    && (Outcome(start).Installs? ==> d == Installed(Outcome(start).pair) && Matches(Outcome(start).pair))
    && (Outcome(start).Untouched? ==> AllBlank(d))
  }

  ghost predicate StagingReaches(d: Disk, n: Pair, e: Disk) {
    && Current(e) == Current(d)
    && Read(e, KeyPrevious) == Read(d, KeyPrevious)
    && Read(e, CertPrevious) == Read(d, CertPrevious)
    && Read(e, KeyNext) in {Blank, n.key}
    && Read(e, CertNext) in {Blank, n.cert}
  }

  lemma StagingSteps(d: Disk, n: Pair, e: Disk, stamp: Material)
    requires StagingReaches(d, n, e)
    ensures StagingReaches(d, n, e[KeyNext := n.key]) && StagingReaches(d, n, e[CertNext := n.cert])
    ensures StagingReaches(d, n, e[Marker := stamp])
    ensures StagingReaches(d, n, e - {KeyNext}) && StagingReaches(d, n, e - {CertNext})
  {
  }

  lemma StagingIsShaped(start: Disk, n: Pair, d: Disk, e: Disk)
    requires Ready(start, d) && StagingReaches(d, n, e)
    ensures Shaped(start, n, e)
  {
  }

  lemma PruningKeepsShape(start: Disk, n: Pair, d: Disk, e: Disk)
    requires Shaped(start, n, d) && Current(d) == n && Pruned(d, e)
    ensures Shaped(start, n, e)
  {
    assert forall s :: Read(e, s) in {Blank, Read(d, s)};
    assert Current(e) == n;
  }

  datatype MoveResult = Moved | Missing | Failed

  class PairStore {
    var files: Disk
    /** Every disk state that existed between two file operations: the crash points. */
    ghost var witnessed: set<Disk>
    /** How many file operations have failed. */
    ghost var faults: nat

    constructor (initial: Disk)
      ensures files == initial && witnessed == {initial} && faults == 0
    {
      files := initial;
      witnessed, faults := {initial}, 0;
    }

    /** An atomic write: it may report an error with or without having taken effect,
        because the directory sync follows the rename. */
    method Write(slot: Slot, m: Material) returns (ok: bool)
      modifies this
      ensures files == old(files)[slot := m] || (!ok && files == old(files))
      ensures witnessed == old(witnessed) + {files}
      ensures faults == old(faults) + if ok then 0 else 1
    {
      ok := *;
      var landed: bool := *;
      if ok || landed {
        files := files[slot := m];
      }
      witnessed, faults := witnessed + {files}, faults + if ok then 0 else 1;
    }

    method Move(source: Slot, target: Slot) returns (r: MoveResult)
      modifies this
      ensures r == Missing <==> source !in old(files)
      ensures r == Missing ==> files == old(files)
      ensures r == Moved ==> files == (old(files) - {source})[target := old(files)[source]]
      ensures r == Failed ==> files == old(files) || files == (old(files) - {source})[target := old(files)[source]]
      ensures witnessed == old(witnessed) + {files}
      ensures faults == old(faults) + if r == Failed then 1 else 0
    {
      if source !in files {
        r := Missing;
      } else {
        var ok: bool := *;
        var landed: bool := *;
        r := if ok then Moved else Failed;
        if ok || landed {
          files := (files - {source})[target := files[source]];
        }
      }
      witnessed, faults := witnessed + {files}, faults + if r == Failed then 1 else 0;
    }

    method Remove(slot: Slot) returns (ok: bool)
      modifies this
      ensures files == old(files) - {slot} || (!ok && files == old(files))
      ensures witnessed == old(witnessed) + {files}
      ensures faults == old(faults) + if ok then 0 else 1
    {
      ok := true;
      if slot in files {
        ok := *;
        if ok {
          files := files - {slot};
        }
      } else {
        assert files == files - {slot};
      }
      witnessed, faults := witnessed + {files}, faults + if ok then 0 else 1;
    }

    /** All five removals are attempted even if an earlier one fails. */
    method CleanupPairArtifacts() returns (ok: bool)
      modifies this
      ensures Pruned(old(files), files)
      ensures forall d :: d in witnessed ==> d in old(witnessed) || Pruned(old(files), d)
      ensures old(witnessed) <= witnessed && files in witnessed
      ensures ok ==> forall s :: s in files ==> !IsArtifact(s)
      ensures faults >= old(faults) && (ok <==> faults == old(faults))
    {
      var slots := [CertNext, KeyNext, CertPrevious, KeyPrevious, Marker];
      ok := true;
      var i := 0;
      while i < |slots|
        invariant 0 <= i <= |slots|
        invariant Pruned(old(files), files)
        invariant forall d :: d in witnessed ==> d in old(witnessed) || Pruned(old(files), d)
        invariant old(witnessed) <= witnessed && (i > 0 ==> files in witnessed)
        invariant ok ==> forall j :: 0 <= j < i ==> slots[j] !in files
        invariant faults >= old(faults) && (ok <==> faults == old(faults))
      {
        var removed := Remove(slots[i]);
        ok := ok && removed;
        i := i + 1;
      }
      assert forall s :: IsArtifact(s) ==>
               s == slots[0] || s == slots[1] || s == slots[2] || s == slots[3] || s == slots[4];
    }

    /** Recovery: it is only ever seen at disks it can be resumed from, and when it succeeds the
        disk holds exactly the chosen pair. */
    method RecoverPair() returns (ok: bool)
      modifies this
      ensures old(witnessed) <= witnessed
      ensures forall d :: d in witnessed ==> d in old(witnessed) || RecoveryReaches(old(files), d)
      ensures RecoveryReaches(old(files), files)
      ensures ok ==> Outcome(old(files)) != Stuck
      ensures ok && Outcome(old(files)).Installs? ==> files == Installed(Outcome(old(files)).pair)
      ensures !Outcome(old(files)).Installs? ==>
                files == old(files) && ok == Outcome(old(files)).Untouched? && faults == old(faults)
      ensures faults >= old(faults) && (!ok ==> Outcome(old(files)) == Stuck || faults > old(faults))
    {
      OutcomeByCandidates(files);
      if Loaded(files) {
        assert WithPair(files, Current(files)) == files;
        ok := CleanupPairArtifacts();
        assert ok ==> files == Installed(Outcome(old(files)).pair);
        return;
      }
      var certCurrent, keyCurrent := Read(files, CertCurrent), Read(files, KeyCurrent);
      var certNext, keyNext := Read(files, CertNext), Read(files, KeyNext);
      var certPrevious, keyPrevious := Read(files, CertPrevious), Read(files, KeyPrevious);
      var candidates := [
        Pair(certCurrent, keyPrevious), Pair(certPrevious, keyPrevious), Pair(certNext, keyCurrent),
        Pair(certNext, keyNext), Pair(certPrevious, keyCurrent)];
      var i := 0;
      while i < |candidates|
        invariant 0 <= i <= |candidates|
        invariant forall j :: 0 <= j < i ==> !Matches(candidates[j])
        invariant files == old(files) && witnessed == old(witnessed) && faults == old(faults)
      {
        var p := candidates[i];
        if Matches(p) {
          FirstMatchAt(candidates, i);
          ok := Install(p);
          return;
        }
        i := i + 1;
      }
      ok := && certCurrent == Blank && keyCurrent == Blank && certNext == Blank && keyNext == Blank
            && certPrevious == Blank && keyPrevious == Blank;
      NothingMatches(files, candidates);
    }

    lemma NothingMatches(d: Disk, candidates: seq<Pair>)
      requires candidates == Candidates(d) && forall j :: 0 <= j < |candidates| ==> !Matches(candidates[j])
      requires !Loaded(d)
      ensures Outcome(d) == if forall s :: s != Marker ==> Read(d, s) == Blank then Untouched else Stuck
    {
      assert forall p :: p in Candidates(d) ==> !Matches(p);
      assert AllBlank(d) <==> forall s :: s != Marker ==> Read(d, s) == Blank;
    }

    /** Writes the chosen pair, key first, and cleans up. */
    method Install(p: Pair) returns (ok: bool)
      modifies this
      ensures old(witnessed) <= witnessed
      ensures forall d :: d in witnessed ==>
                || d in old(witnessed) || d == old(files) || d == WithKey(old(files), p)
                || Pruned(WithPair(old(files), p), d)
      ensures files == old(files) || files == WithKey(old(files), p) || Pruned(WithPair(old(files), p), files)
      ensures ok ==> files == Installed(p)
      ensures faults >= old(faults) && (ok <==> faults == old(faults))
    {
      ok := Write(KeyCurrent, p.key);
      if !ok { return; }
      ok := Write(CertCurrent, p.cert);
      assert Pruned(WithPair(old(files), p), WithPair(old(files), p));
      if !ok { return; }
      ok := CleanupPairArtifacts();
      assert ok ==> files == Installed(p);
    }

    /** `replaceBackup`: drop a stale backup, then rename the current file onto it. */
    method ReplaceBackup(current: Slot, previous: Slot) returns (ok: bool)
      requires !IsArtifact(current) && IsArtifact(previous)
      modifies this
      ensures old(witnessed) <= witnessed
      ensures forall d :: d in witnessed ==>
                d in old(witnessed) || d == old(files) || d == old(files) - {previous}
                || d == BackedUp(old(files), current, previous)
      ensures files in {old(files), old(files) - {previous}, BackedUp(old(files), current, previous)}
      ensures ok ==> files == BackedUp(old(files), current, previous)
      ensures faults >= old(faults) && (ok <==> faults == old(faults))
    {
      ok := Remove(previous);
      if !ok { return; }
      var r := Move(current, previous);
      assert current in old(files) ==>
             (old(files) - {previous} - {current})[previous := old(files)[current]] ==
             BackedUp(old(files), current, previous);
      ok := r != Failed;
    }

    /** The commit closure: both backups, then the key rename, then the certificate rename. */
    method Commit(ghost start: Disk, ghost n: Pair) returns (ok: bool)
      requires Matches(n) && Outcome(start) != Stuck && Staged(start, n, files)
      modifies this
      ensures old(witnessed) <= witnessed && Shaped(start, n, files)
      ensures forall d :: d in witnessed ==> d in old(witnessed) || Shaped(start, n, d)
      ensures ok ==> Current(files) == n
      ensures faults >= old(faults) && (ok <==> faults == old(faults))
    {
      ghost var d := files;
      ok := BackUpBoth(start, n);
      if !ok { return; }
      ok := RenameBoth(start, n, d);
    }

    method BackUpBoth(ghost start: Disk, ghost n: Pair) returns (ok: bool)
      requires Matches(n) && Outcome(start) != Stuck && Staged(start, n, files)
      modifies this
      ensures old(witnessed) <= witnessed && Shaped(start, n, files)
      ensures forall d :: d in witnessed ==> d in old(witnessed) || Shaped(start, n, d)
      ensures ok ==> files == CommitDisk(old(files), 2)
      ensures faults >= old(faults) && (ok <==> faults == old(faults))
    {
      CommitIsShaped(start, n, files, 0);
      CommitIsShaped(start, n, files, 1);
      CommitIsShaped(start, n, files, 2);
      ghost var d := files;
      ok := ReplaceBackup(KeyCurrent, KeyPrevious);
      if !ok { return; }
      assert files == CommitDisk(d, 1);
      ok := ReplaceBackup(CertCurrent, CertPrevious);
    }

    method RenameBoth(ghost start: Disk, ghost n: Pair, ghost d: Disk) returns (ok: bool)
      requires Matches(n) && Outcome(start) != Stuck && Staged(start, n, d) && files == CommitDisk(d, 2)
      modifies this
      ensures old(witnessed) <= witnessed && Shaped(start, n, files)
      ensures forall d :: d in witnessed ==> d in old(witnessed) || Shaped(start, n, d)
      ensures ok ==> Current(files) == n
      ensures faults >= old(faults) && (ok <==> faults == old(faults))
    {
      CommitIsShaped(start, n, d, 2);
      CommitIsShaped(start, n, d, 3);
      CommitIsShaped(start, n, d, 4);
      var r := Move(KeyNext, KeyCurrent);
      if r != Moved { return false; }
      assert files == CommitDisk(d, 3);
      r := Move(CertNext, CertCurrent);
      if r != Moved { return false; }
      assert files == CommitDisk(d, 4);
      var readable: bool := *;
      ok := readable && Loaded(files);
      faults := faults + if readable then 0 else 1;
    }

    /** Replaces the installed pair. `acceptable` stands for the checks on the issued
        certificate other than that it fits the key. */
    method PersistPair(cert: Material, key: Material, acceptable: bool) returns (ok: bool)
      modifies this
      ensures old(witnessed) <= witnessed
      ensures !acceptable || !Matches(Pair(cert, key)) ==> !ok && files == old(files) && witnessed == old(witnessed)
      ensures ok ==> files == Installed(Pair(cert, key))
      ensures Outcome(old(files)).Stuck? ==> !ok && files == old(files) && faults == old(faults)
      ensures forall d :: d in witnessed ==> d in old(witnessed) || TransactionReaches(old(files), Pair(cert, key), d)
      ensures TransactionReaches(old(files), Pair(cert, key), files)
      ensures forall d :: d in witnessed ==> d in old(witnessed) || Safe(old(files), Pair(cert, key), d)
      ensures files == old(files) || Safe(old(files), Pair(cert, key), files)
      ensures acceptable && Matches(Pair(cert, key)) && Outcome(old(files)) != Stuck ==> ok || faults > old(faults)
    {
      var n := Pair(cert, key);
      if !acceptable || !Matches(n) {
        return false;
      }
      ghost var start := files;
      OutcomeMatches(start);
      ok := RecoverPair();
      forall d | RecoveryReaches(start, d) ensures Safe(start, n, d) {
        InitialRecoveryIsSafe(start, n, d);
      }
      if !ok { return; }
      ok := Transact(start, n);
      forall d | Shaped(start, n, d) ensures Safe(start, n, d) {
        ShapedIsSafe(start, n, d);
      }
    }

    /** Stage, commit, and either clean up or recover. */
    method Transact(ghost start: Disk, n: Pair) returns (ok: bool)
      requires Matches(n) && Outcome(start) != Stuck && Ready(start, files)
      modifies this
      ensures old(witnessed) <= witnessed && Shaped(start, n, files)
      ensures forall d :: d in witnessed ==> d in old(witnessed) || Shaped(start, n, d)
      ensures ok ==> files == Installed(n)
      ensures faults >= old(faults) && (ok <==> faults == old(faults))
    {
      ghost var base := files;
      ok := StageNext(n);
      forall d | StagingReaches(base, n, d) ensures Shaped(start, n, d) {
        StagingIsShaped(start, n, base, d);
      }
      if !ok { return; }
      ok := Commit(start, n);
      ghost var committed := files;
      if !ok {
        var _ := RecoverPair();
        forall d | RecoveryReaches(committed, d) ensures Shaped(start, n, d) {
          RecoveryKeepsShape(start, n, committed, d);
        }
        return false;
      }
      ok := CleanupPairArtifacts();
      forall d | Pruned(committed, d) ensures Shaped(start, n, d) {
        PruningKeepsShape(start, n, committed, d);
      }
      assert ok ==> files == Installed(n);
    }

    /** Writes key.next, cert.next and the marker, undoing what it can on failure. */
    method StageNext(n: Pair) returns (ok: bool)
      requires Read(files, KeyNext) == Blank && Read(files, CertNext) == Blank
      modifies this
      ensures old(witnessed) <= witnessed && StagingReaches(old(files), n, files)
      ensures forall d :: d in witnessed ==> d in old(witnessed) || StagingReaches(old(files), n, d)
      ensures ok ==> Read(files, KeyNext) == n.key && Read(files, CertNext) == n.cert && Marker in files
      ensures faults >= old(faults) && (ok <==> faults == old(faults))
    {
      ghost var d := files;
      var stamp: int := *;
      StagingSteps(d, n, files, Junk(stamp));
      ok := Write(KeyNext, n.key);
      if !ok { return; }
      StagingSteps(d, n, files, Junk(stamp));
      ok := Write(CertNext, n.cert);
      StagingSteps(d, n, files, Junk(stamp));
      if !ok {
        var _ := Remove(KeyNext);
        return;
      }
      ok := Write(Marker, Junk(stamp));
      StagingSteps(d, n, files, Junk(stamp));
      if !ok {
        var _ := Remove(KeyNext);
        StagingSteps(d, n, files, Junk(stamp));
        var _ := Remove(CertNext);
      }
    }
  }
}
