/** The on-disk redo log: what each disk write of a commit or of a recovery leaves on
    the disk, and what finishing recovery from there gives. */
module LogSpec {
  import opened Basics
  import opened Words

  type Disk = seq<Block>

  /** Log area: blocks start .. start + size - 1, the first of them the header. */
  datatype Layout = Layout(start: nat, size: nat)

  ghost predicate Home(l: Layout, b: nat)
  {
    b < l.start || l.start + l.size <= b
  }

  ghost predicate Fits(l: Layout, d: Disk)
  {
    1 <= l.size && l.start + l.size <= |d|
  }

  /** A transaction the log has room for and whose blocks are not log blocks. */
  ghost predicate Loggable(l: Layout, d: Disk, lh: seq<word>)
  {
    && Fits(l, d)
    && |lh| <= LOGSIZE && |lh| < l.size
    && forall i | 0 <= i < |lh| :: lh[i] < |d| && Home(l, lh[i])
  }

  ghost predicate Agree(l: Layout, d: Disk, e: Disk)
  {
    |d| == |e| && forall b: nat | b < |d| && Home(l, b) :: d[b] == e[b]
  }

  // ---- header block ----

  ghost predicate HeadReadable(b: Block)
  {
    Word(b, 0) <= LOGSIZE
  }

  function Head(b: Block): (lh: seq<word>)
    requires HeadReadable(b)
  {
    seq(Word(b, 0), i requires 0 <= i < Word(b, 0) && HeadReadable(b) => Word(b, i + 1))
  }

  function PutEntries(b: Block, lh: seq<word>, k: nat): (r: Block)
    requires k <= |lh| <= LOGSIZE
  {
    if k == 0 then PutWord(b, 0, |lh|) else PutWord(PutEntries(b, lh, k - 1), k, lh[k - 1])
  }

  /** What write_head stores: n and the first n entries; the rest of the block stays. */
  function PutHead(b: Block, lh: seq<word>): (r: Block)
    requires |lh| <= LOGSIZE
  {
    PutEntries(b, lh, |lh|)
  }

  lemma {:induction false} PutEntriesWords(b: Block, lh: seq<word>, k: nat, i: nat)
    requires k <= |lh| <= LOGSIZE && i < WORDS
    ensures Word(PutEntries(b, lh, k), i) == if i == 0 then |lh| else if i <= k then lh[i - 1] else Word(b, i)
  {
    if k == 0 {
      PutWordGet(b, 0, |lh|, i);
    } else {
      PutEntriesWords(b, lh, k - 1, i);
      PutWordGet(PutEntries(b, lh, k - 1), k, lh[k - 1], i);
    }
  }

  /** A written header reads back as the transaction that was written. */
  lemma HeadRoundTrip(b: Block, lh: seq<word>)
    requires |lh| <= LOGSIZE
    ensures HeadReadable(PutHead(b, lh)) && Head(PutHead(b, lh)) == lh
  {
    var h := PutHead(b, lh);
    PutEntriesWords(b, lh, |lh|, 0);
    forall i | 0 <= i < |lh| ensures Head(h)[i] == lh[i] {
      PutEntriesWords(b, lh, |lh|, i + 1);
    }
  }

  // ---- disk images ----

  ghost predicate Recoverable(l: Layout, d: Disk)
  {
    Fits(l, d) && HeadReadable(d[l.start]) && Loggable(l, d, Head(d[l.start]))
  }

  lemma RecoverableHead(l: Layout, d: Disk)
    requires Recoverable(l, d)
    ensures Fits(l, d) && HeadReadable(d[l.start]) && Loggable(l, d, Head(d[l.start]))
  {
  }

  /** The first t logged blocks copied to their home locations. */
  ghost function Install(l: Layout, d: Disk, lh: seq<word>, t: nat): (r: Disk)
    requires Loggable(l, d, lh) && t <= |lh|
    ensures |r| == |d|
  {
    if t == 0 then d else Install(l, d, lh, t - 1)[lh[t - 1] := d[l.start + t]]
  }

  ghost function ClearHead(l: Layout, d: Disk): (r: Disk)
    requires Fits(l, d)
  {
    d[l.start := PutHead(d[l.start], [])]
  }

  /** The disk after the first k disk writes of recover_from_log. */
  ghost function RecoveryImage(l: Layout, d: Disk, k: nat): (r: Disk)
    requires Recoverable(l, d)
  {
    var lh := Head(d[l.start]);
    if k <= |lh| then Install(l, d, lh, k) else ClearHead(l, Install(l, d, lh, |lh|))
  }

  ghost function Recovered(l: Layout, d: Disk): (r: Disk)
    requires Recoverable(l, d)
  {
    RecoveryImage(l, d, |Head(d[l.start])| + 1)
  }

  /** The first t blocks of the transaction copied from the cache into the log. */
  ghost function Logged(l: Layout, d: Disk, v: Disk, lh: seq<word>, t: nat): (r: Disk)
    requires Loggable(l, d, lh) && |v| == |d| && t <= |lh|
    ensures |r| == |d|
  {
    if t == 0 then d else Logged(l, d, v, lh, t - 1)[l.start + t := v[lh[t - 1]]]
  }

  lemma LoggedNone(l: Layout, d: Disk, v: Disk, lh: seq<word>)
    requires Loggable(l, d, lh) && |v| == |d|
    ensures Logged(l, d, v, lh, 0) == d && Agree(l, v, v)
  {
  }

  ghost function Committed(l: Layout, d: Disk, v: Disk, lh: seq<word>): (r: Disk)
    requires Loggable(l, d, lh) && |v| == |d|
  {
    var e := Logged(l, d, v, lh, |lh|);
    e[l.start := PutHead(e[l.start], lh)]
  }

  /** The disk after the first k disk writes of commit: |lh| log blocks, the header,
      |lh| home blocks, the cleared header. */
  ghost function CommitImage(l: Layout, d: Disk, v: Disk, lh: seq<word>, k: nat): (r: Disk)
    requires Loggable(l, d, lh) && |v| == |d|
  {
    var n := |lh|;
    if k <= n then Logged(l, d, v, lh, k)
    else
      var c := Committed(l, d, v, lh);
      if k <= 2 * n + 1 then Install(l, c, lh, k - n - 1)
      else ClearHead(l, Install(l, c, lh, n))
  }

  /** The disk images after the 1st, 2nd, ... k-th write of a commit, ... */
  ghost function CommitImages(l: Layout, d: Disk, v: Disk, lh: seq<word>, k: nat): (r: seq<Disk>)
    requires Loggable(l, d, lh) && |v| == |d|
    ensures |r| == k
  {
    if k == 0 then [] else CommitImages(l, d, v, lh, k - 1) + [CommitImage(l, d, v, lh, k)]
  }

  /** ... of install_trans ... */
  ghost function InstallImages(l: Layout, d: Disk, lh: seq<word>, t: nat): (r: seq<Disk>)
    requires Loggable(l, d, lh) && t <= |lh|
    ensures |r| == t
  {
    if t == 0 then [] else InstallImages(l, d, lh, t - 1) + [Install(l, d, lh, t)]
  }

  /** ... and of a recovery. */
  ghost function RecoveryImages(l: Layout, d: Disk, k: nat): (r: seq<Disk>)
    requires Recoverable(l, d)
    ensures |r| == k
  {
    if k == 0 then [] else RecoveryImages(l, d, k - 1) + [RecoveryImage(l, d, k)]
  }

  lemma {:induction false} CommitInstalls(l: Layout, d: Disk, v: Disk, lh: seq<word>, t: nat)
    requires Loggable(l, d, lh) && |v| == |d| && t <= |lh|
    ensures CommitImages(l, d, v, lh, |lh| + 1 + t) ==
            CommitImages(l, d, v, lh, |lh| + 1) + InstallImages(l, Committed(l, d, v, lh), lh, t)
  {
    if t > 0 { CommitInstalls(l, d, v, lh, t - 1); }
  }

  /** `images` is `before` and then the images of the first writes of a commit. */
  ghost predicate CommitRan(images: seq<Disk>, before: seq<Disk>, l: Layout, d: Disk, v: Disk, lh: seq<word>)
    requires Loggable(l, d, lh) && |v| == |d|
  {
    |before| <= |images| && images == before + CommitImages(l, d, v, lh, |images| - |before|)
  }

  lemma CommitNone(images: seq<Disk>, l: Layout, d: Disk, v: Disk, lh: seq<word>)
    requires Loggable(l, d, lh) && |v| == |d|
    ensures CommitRan(images, images, l, d, v, lh)
  {
  }

  /** Such a run grows by one write, ... */
  lemma CommitNext(images: seq<Disk>, before: seq<Disk>, l: Layout, d: Disk, v: Disk, lh: seq<word>, k: nat, e: Disk)
    requires Loggable(l, d, lh) && |v| == |d| && CommitRan(images, before, l, d, v, lh) && k == |images| - |before|
    requires e == CommitImage(l, d, v, lh, k + 1)
    ensures CommitRan(images + [e], before, l, d, v, lh)
  {
    assert |images + [e]| - |before| == k + 1;
  }

  /** ... one of write_log, ... */
  lemma CommitLogged(images: seq<Disk>, before: seq<Disk>, l: Layout, d: Disk, v: Disk, lh: seq<word>, k: nat, e: Disk)
    requires Loggable(l, d, lh) && |v| == |d| && CommitRan(images, before, l, d, v, lh) && k == |images| - |before|
    requires k < |lh| && e == Logged(l, d, v, lh, k + 1)
    ensures CommitRan(images + [e], before, l, d, v, lh)
  {
    CommitNext(images, before, l, d, v, lh, k, e);
  }

  /** ... the header's, ... */
  lemma CommitHead(images: seq<Disk>, before: seq<Disk>, l: Layout, d: Disk, v: Disk, lh: seq<word>, e: Disk)
    requires Loggable(l, d, lh) && |v| == |d| && CommitRan(images, before, l, d, v, lh) && |images| - |before| == |lh|
    requires e == Committed(l, d, v, lh)
    ensures CommitRan(images + [e], before, l, d, v, lh)
  {
    CommitNext(images, before, l, d, v, lh, |lh|, e);
  }

  /** ... or the last one, ... */
  lemma CommitLast(images: seq<Disk>, before: seq<Disk>, l: Layout, d: Disk, v: Disk, lh: seq<word>, e: Disk)
    requires Loggable(l, d, lh) && |v| == |d| && CommitRan(images, before, l, d, v, lh)
    requires |images| - |before| == 2 * |lh| + 1
    requires e == ClearHead(l, Install(l, Committed(l, d, v, lh), lh, |lh|))
    ensures CommitRan(images + [e], before, l, d, v, lh)
  {
    CommitNext(images, before, l, d, v, lh, 2 * |lh| + 1, e);
  }

  /** ... or by those of install_trans. */
  lemma CommitTail(images: seq<Disk>, before: seq<Disk>, l: Layout, d: Disk, v: Disk, lh: seq<word>, t: nat)
    requires Loggable(l, d, lh) && |v| == |d| && t <= |lh| && CommitRan(images, before, l, d, v, lh)
    requires |images| - |before| == |lh| + 1
    ensures CommitRan(images + InstallImages(l, Committed(l, d, v, lh), lh, t), before, l, d, v, lh)
  {
    hide CommitImages, InstallImages;
    CommitInstalls(l, d, v, lh, t);
    assert |images + InstallImages(l, Committed(l, d, v, lh), lh, t)| - |before| == |lh| + 1 + t;
  }

  lemma {:induction false} RecoveryInstalls(l: Layout, d: Disk, t: nat)
    requires Recoverable(l, d) && t <= |Head(d[l.start])|
    ensures RecoveryImages(l, d, t) == InstallImages(l, d, Head(d[l.start]), t)
  {
    if t > 0 { RecoveryInstalls(l, d, t - 1); }
  }

  /** `images` is `before` and then the images of the first k writes of a recovery. */
  ghost predicate RecoveryRan(images: seq<Disk>, before: seq<Disk>, l: Layout, d: Disk, k: nat)
    requires Recoverable(l, d)
  {
    images == before + RecoveryImages(l, d, k)
  }

  lemma RecoveryNone(images: seq<Disk>, l: Layout, d: Disk)
    requires Recoverable(l, d)
    ensures RecoveryRan(images, images, l, d, 0)
  {
  }

  lemma RecoveryTail(images: seq<Disk>, before: seq<Disk>, l: Layout, d: Disk, lh: seq<word>, t: nat)
    requires Recoverable(l, d) && lh == Head(d[l.start]) && t <= |lh| && images == before + InstallImages(l, d, lh, t)
    ensures RecoveryRan(images, before, l, d, t)
  {
    RecoveryInstalls(l, d, t);
  }

  lemma RecoveryLast(images: seq<Disk>, before: seq<Disk>, l: Layout, d: Disk, lh: seq<word>, e: Disk)
    requires Recoverable(l, d) && lh == Head(d[l.start]) && RecoveryRan(images, before, l, d, |lh|)
    requires e == ClearHead(l, Install(l, d, lh, |lh|))
    ensures RecoveryRan(images + [e], before, l, d, |lh| + 1) && e == Recovered(l, d)
  {
    assert RecoveryImages(l, d, |lh| + 1) == RecoveryImages(l, d, |lh|) + [e];
  }

  /** The images in a list are those of its writes. */
  lemma {:induction false} CommitImageAt(l: Layout, d: Disk, v: Disk, lh: seq<word>, k: nat, j: nat)
    requires Loggable(l, d, lh) && |v| == |d| && j < k
    ensures CommitImages(l, d, v, lh, k)[j] == CommitImage(l, d, v, lh, j + 1)
  {
    if j < k - 1 { CommitImageAt(l, d, v, lh, k - 1, j); }
  }

  // ---- lemmas ----

  /** Block by block, what installing does: the last log copy of each listed block. */
  lemma {:induction false} InstallKeepsLog(l: Layout, d: Disk, lh: seq<word>, t: nat, b: nat)
    requires Loggable(l, d, lh) && t <= |lh| && b < |d| && b !in lh[..t]
    ensures Install(l, d, lh, t)[b] == d[b]
  {
    if t > 0 {
      assert lh[..t] == lh[..t - 1] + [lh[t - 1]];
      InstallKeepsLog(l, d, lh, t - 1, b);
    }
  }

  lemma LogNotListed(l: Layout, d: Disk, lh: seq<word>, t: nat, b: nat)
    requires Loggable(l, d, lh) && t <= |lh| && !Home(l, b)
    ensures b !in lh[..t]
  {
  }

  /** Two disks with the same log install the same contents in every listed block. */
  lemma {:induction false} InstallSame(l: Layout, d: Disk, e: Disk, lh: seq<word>, t: nat, b: nat)
    requires Loggable(l, d, lh) && |e| == |d| && t <= |lh| && b in lh[..t]
    requires forall i | l.start < i <= l.start + |lh| :: d[i] == e[i]
    ensures Install(l, d, lh, t)[b] == Install(l, e, lh, t)[b]
  {
    if lh[t - 1] != b {
      assert lh[..t] == lh[..t - 1] + [lh[t - 1]];
      InstallSame(l, d, e, lh, t - 1, b);
    }
  }

  /** Starting over after t installs, however many, gives what one clean run gives. */
  lemma InstallAgain(l: Layout, d: Disk, lh: seq<word>, t: nat)
    requires Loggable(l, d, lh) && t <= |lh|
    ensures Install(l, Install(l, d, lh, t), lh, |lh|) == Install(l, d, lh, |lh|)
  {
    var e := Install(l, d, lh, t);
    forall i | l.start < i <= l.start + |lh| ensures d[i] == e[i] {
      LogNotListed(l, d, lh, t, i);
      InstallKeepsLog(l, d, lh, t, i);
    }
    forall b: nat | b < |d| ensures Install(l, e, lh, |lh|)[b] == Install(l, d, lh, |lh|)[b] {
      if b in lh[..|lh|] {
        InstallSame(l, d, e, lh, |lh|, b);
      } else {
        assert b !in lh[..t];
        InstallKeepsLog(l, d, lh, |lh|, b);
        InstallKeepsLog(l, e, lh, |lh|, b);
        InstallKeepsLog(l, d, lh, t, b);
      }
    }
  }

  lemma EmptyHead(l: Layout, d: Disk)
    requires Fits(l, d)
    ensures Recoverable(l, ClearHead(l, d)) && Head(ClearHead(l, d)[l.start]) == []
  {
    HeadRoundTrip(d[l.start], []);
  }

  /** mkfs's zeroed log holds no transaction: such a disk is where every history starts. */
  lemma FreshLog(l: Layout, d: Disk)
    requires Fits(l, d) && forall j | 0 <= j < WORDS :: Word(d[l.start], j) == 0
    ensures Recoverable(l, d) && Head(d[l.start]) == [] && Loggable(l, d, [])
  {
    assert Word(d[l.start], 0) == 0;
  }

  /** A recovery stopped after any number of its writes can be recovered again, and
      ends with the same home blocks. */
  lemma RecoveryRestarts(l: Layout, d: Disk, k: nat)
    requires Recoverable(l, d)
    ensures Recoverable(l, RecoveryImage(l, d, k))
    ensures Agree(l, Recovered(l, RecoveryImage(l, d, k)), Recovered(l, d))
  {
    var lh := Head(d[l.start]);
    if k <= |lh| {
      LogNotListed(l, d, lh, k, l.start);
      InstallKeepsLog(l, d, lh, k, l.start);
      InstallAgain(l, d, lh, k);
    } else {
      EmptyHead(l, Install(l, d, lh, |lh|));
    }
  }

  /** The disk after a series of boots each of which crashed inside recovery, the i-th
      of them after crashes[i] disk writes. */
  ghost function AfterCrashes(l: Layout, d: Disk, crashes: seq<nat>): (r: Disk)
    requires Recoverable(l, d)
    decreases |crashes|
  {
    if crashes == [] then d
    else
      RecoveryRestarts(l, d, crashes[0]);
      AfterCrashes(l, RecoveryImage(l, d, crashes[0]), crashes[1..])
  }

  lemma {:induction false} CrashesDoNotMatter(l: Layout, d: Disk, crashes: seq<nat>)
    requires Recoverable(l, d)
    ensures Recoverable(l, AfterCrashes(l, d, crashes))
    ensures Agree(l, Recovered(l, AfterCrashes(l, d, crashes)), Recovered(l, d))
    decreases |crashes|
  {
    if crashes != [] {
      RecoveryRestarts(l, d, crashes[0]);
      CrashesDoNotMatter(l, RecoveryImage(l, d, crashes[0]), crashes[1..]);
    }
  }

  lemma {:induction false} LoggedBlocks(l: Layout, d: Disk, v: Disk, lh: seq<word>, t: nat, b: nat)
    requires Loggable(l, d, lh) && |v| == |d| && t <= |lh| && b < |d|
    ensures Logged(l, d, v, lh, t)[b] ==
      if l.start < b <= l.start + t then v[lh[b - l.start - 1]] else d[b]
  {
    if t > 0 { LoggedBlocks(l, d, v, lh, t - 1, b); }
  }

  /** Installing the committed transaction gives the cached contents. */
  lemma {:induction false} InstallCommitted(l: Layout, d: Disk, v: Disk, lh: seq<word>, t: nat, b: nat)
    requires Loggable(l, d, lh) && |v| == |d| && t <= |lh| && b < |d| && b in lh[..t]
    ensures Install(l, Committed(l, d, v, lh), lh, t)[b] == v[b]
  {
    var c := Committed(l, d, v, lh);
    if lh[t - 1] == b {
      LoggedBlocks(l, d, v, lh, |lh|, l.start + t);
    } else {
      assert lh[..t] == lh[..t - 1] + [lh[t - 1]];
      InstallCommitted(l, d, v, lh, t - 1, b);
    }
  }

  lemma CommittedAgrees(l: Layout, d: Disk, v: Disk, lh: seq<word>)
    requires Loggable(l, d, lh) && |v| == |d|
    requires forall b: nat | b < |d| && Home(l, b) && b !in lh :: v[b] == d[b]
    ensures Agree(l, Install(l, Committed(l, d, v, lh), lh, |lh|), v)
  {
    var c := Committed(l, d, v, lh);
    assert lh[..|lh|] == lh;
    forall b: nat | b < |d| && Home(l, b) ensures Install(l, c, lh, |lh|)[b] == v[b] {
      if b in lh {
        InstallCommitted(l, d, v, lh, |lh|, b);
      } else {
        InstallKeepsLog(l, c, lh, |lh|, b);
        LoggedBlocks(l, d, v, lh, |lh|, b);
      }
    }
  }

  /** Before the header is written the log is still empty. */
  lemma LoggedRecovers(l: Layout, d: Disk, v: Disk, lh: seq<word>, k: nat)
    requires Loggable(l, d, lh) && |v| == |d| && k <= |lh|
    requires Recoverable(l, d) && Head(d[l.start]) == []
    ensures
      var e := Logged(l, d, v, lh, k);
      Recoverable(l, e) && Agree(l, Recovered(l, e), d)
  {
    var e := Logged(l, d, v, lh, k);
    LoggedBlocks(l, d, v, lh, k, l.start);
    assert e[l.start] == d[l.start];
    assert Recovered(l, e) == ClearHead(l, e);
    forall b: nat | b < |d| && Home(l, b) ensures ClearHead(l, e)[b] == d[b] { LoggedBlocks(l, d, v, lh, k, b); }
  }

  lemma CommittedRecovers(l: Layout, d: Disk, v: Disk, lh: seq<word>)
    requires Loggable(l, d, lh) && |v| == |d|
    requires forall b: nat | b < |d| && Home(l, b) && b !in lh :: v[b] == d[b]
    ensures
      var c := Committed(l, d, v, lh);
      Recoverable(l, c) && Head(c[l.start]) == lh && Agree(l, Recovered(l, c), v)
  {
    var c := Committed(l, d, v, lh);
    HeadRoundTrip(Logged(l, d, v, lh, |lh|)[l.start], lh);
    assert Head(c[l.start]) == lh;
    CommittedAgrees(l, d, v, lh);
    assert Recovered(l, c) == ClearHead(l, Install(l, c, lh, |lh|));
  }

  /** Commit's disk writes, one by one: recovering after the first k of them gives the
      old contents up to and without the header write, and the new contents from it on. */
  lemma CommitImageRecovers(l: Layout, d: Disk, v: Disk, lh: seq<word>, k: nat)
    requires Loggable(l, d, lh) && |v| == |d|
    requires Recoverable(l, d) && Head(d[l.start]) == []
    requires forall b: nat | b < |d| && Home(l, b) && b !in lh :: v[b] == d[b]
    ensures
      var e := CommitImage(l, d, v, lh, k);
      Recoverable(l, e) && Agree(l, Recovered(l, e), if k <= |lh| then d else v)
  {
    if k <= |lh| {
      assert CommitImage(l, d, v, lh, k) == Logged(l, d, v, lh, k);
      hide CommitImage, Recovered, Recoverable, Logged, Agree;
      LoggedRecovers(l, d, v, lh, k);
    } else {
      InstalledRecovers(l, d, v, lh, k);
    }
  }

  lemma InstalledRecovers(l: Layout, d: Disk, v: Disk, lh: seq<word>, k: nat)
    requires Loggable(l, d, lh) && |v| == |d| && k > |lh|
    requires forall b: nat | b < |d| && Home(l, b) && b !in lh :: v[b] == d[b]
    ensures
      var e := CommitImage(l, d, v, lh, k);
      Recoverable(l, e) && Agree(l, Recovered(l, e), v)
  {
    hide CommitImage, RecoveryImage, Recovered, Recoverable, Committed, Loggable, Agree;
    var e, c := CommitImage(l, d, v, lh, k), Committed(l, d, v, lh);
    CommittedRecovers(l, d, v, lh);
    ImageIsRecovery(l, d, v, lh, k, c);
    RecoveryRestarts(l, c, k - |lh| - 1);
    AgreeTrans(l, Recovered(l, e), Recovered(l, c), v);
  }

  lemma ImageIsRecovery(l: Layout, d: Disk, v: Disk, lh: seq<word>, k: nat, c: Disk)
    requires Loggable(l, d, lh) && |v| == |d| && k > |lh| && c == Committed(l, d, v, lh)
    requires Recoverable(l, c) && Head(c[l.start]) == lh
    ensures CommitImage(l, d, v, lh, k) == RecoveryImage(l, c, k - |lh| - 1)
  {
  }

  lemma AgreeTrans(l: Layout, d: Disk, e: Disk, f: Disk)
    requires Agree(l, d, e) && Agree(l, e, f)
    ensures Agree(l, d, f)
  {
  }

  /** Crash atomicity. A transaction interrupted after any k of its disk writes, then any
      number of recoveries interrupted anywhere, then one recovery that finishes: the home
      blocks are all old or all new, and new exactly when the header had been written. */
  lemma CrashAtomicity(l: Layout, d: Disk, v: Disk, lh: seq<word>, k: nat, crashes: seq<nat>)
    requires Loggable(l, d, lh) && |v| == |d|
    requires Recoverable(l, d) && Head(d[l.start]) == []
    requires forall b: nat | b < |d| && Home(l, b) && b !in lh :: v[b] == d[b]
    ensures
      var e := CommitImage(l, d, v, lh, k);
      && Recoverable(l, e)
      && Recoverable(l, AfterCrashes(l, e, crashes))
      && Agree(l, Recovered(l, AfterCrashes(l, e, crashes)), if k <= |lh| then d else v)
  {
    CommitImageRecovers(l, d, v, lh, k);
    CrashesDoNotMatter(l, CommitImage(l, d, v, lh, k), crashes);
  }

  /** However recovery from e is interrupted, once it ends the home blocks are those of x. */
  ghost predicate Survives(l: Layout, e: Disk, crashes: seq<nat>, x: Disk)
  {
    && Recoverable(l, e) && Recoverable(l, AfterCrashes(l, e, crashes))
    && Agree(l, Recovered(l, AfterCrashes(l, e, crashes)), x)
  }

  /** Whichever image after `before` a crash uncovers, recovery makes all home blocks those of
      d, or all those of v from the n-th write on. */
  ghost predicate CrashSafe(images: seq<Disk>, before: seq<Disk>, l: Layout, d: Disk, v: Disk, n: nat)
  {
    forall i, crashes | |before| <= i < |images| :: SurvivesAt(images, before, l, d, v, n, i, crashes)
  }

  ghost predicate SurvivesAt(images: seq<Disk>, before: seq<Disk>, l: Layout, d: Disk, v: Disk, n: nat, i: nat,
                             crashes: seq<nat>)
    requires |before| <= i < |images|
  {
    Survives(l, images[i], crashes, if i - |before| < n then d else v)
  }

  /** A commit, complete or not, is crash-safe: old contents before its header, new ones from it on. */
  lemma CommitIsCrashSafe(images: seq<Disk>, before: seq<Disk>, l: Layout, d: Disk, v: Disk, lh: seq<word>)
    requires Loggable(l, d, lh) && |v| == |d| && CommitRan(images, before, l, d, v, lh)
    requires Recoverable(l, d) && Head(d[l.start]) == []
    requires forall b: nat | b < |d| && Home(l, b) && b !in lh :: v[b] == d[b]
    ensures CrashSafe(images, before, l, d, v, |lh|)
  {
    hide CommitImages, CommitImage, AfterCrashes, Recovered, Recoverable, Agree;
    var k := |images| - |before|;
    forall i, crashes | |before| <= i < |images| ensures SurvivesAt(images, before, l, d, v, |lh|, i, crashes) {
      var j := i - |before|;
      CommitImageAt(l, d, v, lh, k, j);
      assert images[i] == CommitImages(l, d, v, lh, k)[j];
      CrashAtomicity(l, d, v, lh, j + 1, crashes);
    }
  }
}
