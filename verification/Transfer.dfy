/** Copying a file to and from an SFTP server that other clients use at the same time. */
module Transfer {
  import opened Basics
  import opened Decimals

  const BUFFER_SIZE := 65536

  datatype Failure = Cancelled | Failed(code: string)

  // ---- The copy loop -------------------------------------------------------

  datatype ReadWait = ReadCancelled | ReadFails | ReadReady

  /** A write that ends early may have taken part of its bytes. */
  datatype WriteWait = WriteCancelled(taken: nat) | WriteFails(taken: nat) | WriteDone

  /** One turn of the loop: what the source holds by then, how much a read returns, how both waits end, and whether
      a progress report is due. */
  datatype CopyStep = CopyStep(content: seq<byte>, amount: nat, read: ReadWait, write: WriteWait, due: bool)

  /** A read at a position returns at least one byte before the end and nothing at it. */
  function ReadAt(content: seq<byte>, position: nat, amount: nat): (chunk: seq<byte>)
    ensures |chunk| <= BUFFER_SIZE
    ensures chunk == [] <==> position >= |content|
    ensures position <= |content| ==>
              position + |chunk| <= |content| && content[..position] + chunk == content[..position + |chunk|]
  {
    if position >= |content| then []
    else
      var wanted := if amount == 0 then 1 else if amount < BUFFER_SIZE then amount else BUFFER_SIZE;
      var available := |content| - position;
      content[position..position + if wanted < available then wanted else available]
  }

  /** The bytes a destination accepted. */
  class Destination {
    var content: seq<byte>

    constructor ()
      ensures content == []
    {
      content := [];
    }

    method WriteAll(chunk: seq<byte>, wait: WriteWait) returns (r: Result<(), Failure>)
      modifies this
      ensures r.Ok? <==> wait.WriteDone?
      ensures r.Ok? ==> content == old(content) + chunk
      ensures r.Err? ==> old(content) <= content <= old(content) + chunk
      ensures r.Err? ==> r.error == if wait.WriteFails? then Failed("WRITE") else Cancelled
    {
      match wait
      case WriteDone =>
        content := content + chunk;
        return Ok(());
      case WriteCancelled(taken) =>
        content := content + if taken <= |chunk| then chunk[..taken] else chunk;
        return Err(Cancelled);
      case WriteFails(taken) =>
        content := content + if taken <= |chunk| then chunk[..taken] else chunk;
        return Err(Failed("WRITE"));
    }
  }

  ghost predicate Unchanged(script: seq<CopyStep>) {
    forall k :: 0 <= k < |script| ==> script[k].content == script[0].content
  }

  ghost predicate Ascending(counts: seq<nat>) {
    forall i, j :: 0 <= i < j < |counts| ==> counts[i] <= counts[j]
  }

  lemma ReportLater(counts: seq<nat>, count: nat)
    requires Ascending(counts) && forall p :: p in counts ==> p <= count
    ensures Ascending(counts + [count]) && forall p :: p in counts + [count] ==> p <= count
  {
    assert forall i :: 0 <= i < |counts| ==> counts[i] in counts;
  }

  ghost predicate Undisturbed(script: seq<CopyStep>) {
    forall k :: 0 <= k < |script| ==> script[k].read.ReadReady? && script[k].write.WriteDone?
  }

  /** Without read or write trouble a copy fails only because turns ran out or the source ended at another size. */
  ghost predicate CopyExplained(script: seq<CopyStep>, expected: Option<nat>, error: Failure, read: seq<byte>) {
    || (error == Cancelled && !LongEnough(script))
    || (error == Failed("SOURCE_CHANGED") && expected.Some? && expected.value != |read|)
  }

  /** An unchanging source with more turns than bytes: every turn before the end reads something. */
  ghost predicate LongEnough(script: seq<CopyStep>) {
    Unchanged(script) && |script| > 0 && |script| > |script[0].content|
  }

  /** What a failing copy is blamed on. */
  ghost predicate Blamed(script: seq<CopyStep>, expected: Option<nat>, readCode: string, error: Failure,
                         read: seq<byte>)
  {
    match error
    case Cancelled =>
      || (forall k :: 0 <= k < |script| ==> script[k].read.ReadReady? && script[k].write.WriteDone?)
      || exists k :: 0 <= k < |script| && (script[k].read.ReadCancelled? || script[k].write.WriteCancelled?)
    case Failed(code) =>
      || (code == readCode && exists k :: 0 <= k < |script| && script[k].read.ReadFails?)
      || (code == "WRITE" && exists k :: 0 <= k < |script| && script[k].write.WriteFails?)
      || (code == "SOURCE_CHANGED" && expected.Some? && expected.value != |read|)
  }

  /** Copies until the source ends; a script that runs out is a disconnect. */
  method CopyWithCancel(script: seq<CopyStep>, expected: Option<nat>, readCode: string, destination: Destination)
    returns (r: Result<nat, Failure>, read: seq<byte>, progress: seq<nat>)
    modifies destination
    ensures old(destination.content) <= destination.content <= old(destination.content) + read
    ensures r.Ok? ==> destination.content == old(destination.content) + read && r.value == |read|
    ensures r.Ok? && expected.Some? ==> r.value == expected.value
    ensures Unchanged(script) && |script| > 0 ==> read <= script[0].content && (r.Ok? ==> read == script[0].content)
    ensures Ascending(progress) && forall p :: p in progress ==> p <= |read|
    ensures r.Ok? ==> |progress| > 0 && progress[|progress| - 1] == r.value
    ensures Undisturbed(script) && r.Err? ==> CopyExplained(script, expected, r.error, read)
    ensures r.Err? ==> Blamed(script, expected, readCode, r.error, read)
  {
    var transferred := 0;
    read, progress := [], [];
    for k := 0 to |script|
      invariant destination.content == old(destination.content) + read && k <= transferred == |read|
      invariant Unchanged(script) && |script| > 0 ==> read <= script[0].content
      invariant Ascending(progress) && forall p :: p in progress ==> p <= |read|
      invariant forall j :: 0 <= j < k ==> script[j].read.ReadReady? && script[j].write.WriteDone?
    {
      var step := script[k];
      if step.read.ReadCancelled? {
        return Err(Cancelled), read, progress;
      }
      if step.read.ReadFails? {
        return Err(Failed(readCode)), read, progress;
      }
      var chunk := ReadAt(step.content, transferred, step.amount);
      if chunk == [] {
        if expected.Some? && transferred != expected.value {
          return Err(Failed("SOURCE_CHANGED")), read, progress;
        }
        ReportLater(progress, transferred);
        progress := progress + [transferred];
        return Ok(transferred), read, progress;
      }
      ghost var before := read;
      read := read + chunk;
      assert Unchanged(script) ==> read <= script[0].content by {
        if Unchanged(script) {
          assert step.content == script[0].content && before == step.content[..|before|];
        }
      }
      var written := destination.WriteAll(chunk, step.write);
      if written.Err? {
        return Err(written.error), read, progress;
      }
      transferred := transferred + |chunk|;
      if step.due {
        ReportLater(progress, transferred);
        progress := progress + [transferred];
      }
    }
    return Err(Cancelled), read, progress;
  }

  // ---- The server ----------------------------------------------------------

  datatype Node = Regular(data: seq<byte>) | Folder | Link

  type Files = map<string, Node>

  /** How the wait for one operation ends. A lost connection, a cancel and a timeout leave open whether the server
      carried the operation out. */
  datatype Reply = Done | Refused | Lost(effect: bool) | Cut(effect: bool) | Late(effect: bool)

  /** What the client learns. */
  datatype Wait<T> = Ready(value: T) | NoSuchFile | Error | CancelledWait | TimedOut

  datatype Change = Change(before: Files, after: Files)

  predicate HasEffect(r: Reply) {
    r.Done? || ((r.Lost? || r.Cut? || r.Late?) && r.effect)
  }

  function Answer<T>(r: Reply, value: T): Wait<T> {
    match r
    case Done => Ready(value)
    case Refused => Error
    case Lost(_) => Error
    case Cut(_) => CancelledWait
    case Late(_) => TimedOut
  }

  /** Each operation first lets the other clients do anything to the paths this client does not own, then does its
      own part and logs it. */
  class Server {
    var files: Files
    var owned: set<string>
    var clock: nat
    var log: seq<Change>
    const others: nat -> Files
    const replies: nat -> Reply

    constructor (files: Files, others: nat -> Files, replies: nat -> Reply)
      ensures this.files == files && owned == {} && clock == 0 && log == []
      ensures this.others == others && this.replies == replies
    {
      this.files, owned, clock, log := files, {}, 0, [];
      this.others, this.replies := others, replies;
    }

    /** This client's latest change. */
    ghost function Last(): Change
      reads this
    {
      if |log| == 0 then Change(map[], map[]) else log[|log| - 1]
    }

    method Turn() returns (reply: Reply)
      modifies this`files, this`clock
      ensures clock == old(clock) + 1 && reply == replies(old(clock))
      ensures forall p :: p in owned ==> (p in files <==> p in old(files)) && (p in files ==> files[p] == old(files)[p])
      ensures forall p :: p !in owned ==> (p in files <==> p in others(old(clock)))
      ensures forall p :: p !in owned && p in files ==> files[p] == others(old(clock))[p]
    {
      reply := replies(clock);
      files := (others(clock) - owned) + (map p | p in files && p in owned :: files[p]);
      clock := clock + 1;
    }

    method Lstat(path: string) returns (w: Wait<Node>)
      modifies this`files, this`clock
      ensures clock == old(clock) + 1
      ensures forall p :: p in owned ==> (p in files <==> p in old(files)) && (p in files ==> files[p] == old(files)[p])
      ensures w.Ready? ==> path in files && w.value == files[path]
      ensures w.NoSuchFile? ==> path !in files
      ensures replies(old(clock)).Done? ==>
              (w.Ready? || w.NoSuchFile?) && (path !in owned ==> (w.Ready? <==> path in others(old(clock))))
      ensures replies(old(clock)).Done? && path !in owned && w.Ready? ==> w.value == others(old(clock))[path]
      ensures w.Error? <==> replies(old(clock)).Refused? || replies(old(clock)).Lost?
      ensures w.CancelledWait? <==> replies(old(clock)).Cut?
      ensures w.TimedOut? <==> replies(old(clock)).Late?
    {
      var reply := Turn();
      if reply.Done? && path !in files {
        return NoSuchFile;
      }
      return Answer(reply, if path in files then files[path] else Folder);
    }

    /** Creates an empty file; refused when the path exists. Once acknowledged, the path is this client's own. */
    method OpenExclusive(path: string) returns (w: Wait<()>)
      requires path !in owned
      modifies this
      ensures clock == old(clock) + 1
      ensures log == old(log) + [Last()] && Last().after == files
      ensures var c := Last(); c.after == c.before || (path !in c.before && c.after == c.before[path := Regular([])])
      ensures w.Ready? ==> owned == old(owned) + {path} && path in files
      ensures !w.Ready? ==> owned == old(owned)
      ensures replies(old(clock)).Done? && path !in others(old(clock)) ==> w.Ready?
    {
      var reply := Turn();
      var before := files;
      var possible := path !in files;
      if possible && HasEffect(reply) {
        files := files[path := Regular([])];
      }
      log := log + [Change(before, files)];
      if !possible && reply.Done? {
        return Error;
      }
      if reply.Done? {
        owned := owned + {path};
      }
      return Answer(reply, ());
    }

    /** The writes sent so far reach an own file in part. */
    method Flush(path: string, content: seq<byte>)
      requires path in owned && path in files
      modifies this`files, this`clock, this`log
      ensures clock == old(clock) + 1 && log == old(log) + [Last()] && Last().after == files
      ensures OwnedKept(old(files), owned - {path}) && path in files
      ensures var c := Last(); exists n: nat :: n <= |content| && c.after == c.before[path := Regular(content[..n])]
    {
      var _ := Turn();
      var before := files;
      var n: nat :| n <= |content|;
      files := files[path := Regular(content[..n])];
      log := log + [Change(before, files)];
    }

    /** Own paths are as they were. */
    ghost predicate OwnedKept(before: Files, paths: set<string>)
      reads this
    {
      forall p :: p in paths ==> (p in files <==> p in before) && (p in files ==> files[p] == before[p])
    }

    /** Once acknowledged, everything written is in the file. */
    method Close(path: string, content: seq<byte>) returns (w: Wait<()>)
      requires path in owned && path in files
      modifies this`files, this`clock, this`log
      ensures clock == old(clock) + 1 && log == old(log) + [Last()] && Last().after == files
      ensures OwnedKept(old(files), owned - {path}) && path in files
      ensures var c := Last(); c.after == c.before || c.after == c.before[path := Regular(content)]
      ensures w.Ready? ==> files[path] == Regular(content)
      ensures replies(old(clock)).Done? ==> w.Ready?
    {
      var reply := Turn();
      var before := files;
      if HasEffect(reply) {
        files := files[path := Regular(content)];
      }
      log := log + [Change(before, files)];
      return Answer(reply, ());
    }

    /** Moves an own file to a path that must not exist. */
    method Rename(from: string, to: string) returns (w: Wait<()>)
      requires from in owned && to !in owned && from in files
      modifies this`files, this`clock, this`log
      ensures clock == old(clock) + 1 && log == old(log) + [Last()] && Last().after == files
      ensures var c := Last();
              && from in c.before && c.before[from] == old(files)[from]
              && (c.after == c.before || (to !in c.before && c.after == (c.before - {from})[to := c.before[from]]))
              && (w.Ready? ==> to !in c.before && c.after == (c.before - {from})[to := c.before[from]])
      ensures replies(old(clock)).Done? && to !in others(old(clock)) ==> w.Ready?
    {
      var reply := Turn();
      var before := files;
      var possible := to !in files;
      if possible && HasEffect(reply) {
        files := (files - {from})[to := files[from]];
      }
      log := log + [Change(before, files)];
      if !possible && reply.Done? {
        return Error;
      }
      return Answer(reply, ());
    }

    /** Removes an own file; the wait cannot be cancelled. */
    method Remove(path: string) returns (w: Wait<()>)
      requires path in owned
      modifies this`files, this`clock, this`log
      ensures clock == old(clock) + 1 && log == old(log) + [Last()] && Last().after == files
      ensures var c := Last(); c.after == c.before || c.after == c.before - {path}
      ensures w.Ready? || w.NoSuchFile? ==> path !in files
      ensures !w.CancelledWait? && (replies(old(clock)).Done? ==> w.Ready? || w.NoSuchFile?)
    {
      var reply := Turn();
      var before := files;
      if HasEffect(reply) {
        files := files - {path};
      }
      log := log + [Change(before, files)];
      if path !in before && reply.Done? {
        return NoSuchFile;
      }
      return Answer(if reply.Cut? then Late(reply.effect) else reply, ());
    }
  }

  // ---- Paths ---------------------------------------------------------------

  function Hex(n: nat, digits: nat): (s: string)
    ensures |s| == digits
  {
    if digits == 0 then "" else Hex(n / 16, digits - 1) + [HexDigit(n % 16)]
  }

  function HexDigit(d: nat): char
    requires d < 16
  {
    if d < 10 then ('0' as int + d) as char else ('a' as int + d - 10) as char
  }

  /** The position of the last slash, or none. */
  function LastSlash(path: string): (r: Option<nat>)
    ensures r.Some? ==> r.value < |path| && path[r.value] == '/' && '/' !in path[r.value + 1..]
    ensures r.None? ==> '/' !in path
  {
    if path == "" then None
    else if path[|path| - 1] == '/' then Some(|path| - 1)
    else
      var r := LastSlash(path[..|path| - 1]);
      assert r.Some? ==> path[r.value + 1..] == path[..|path| - 1][r.value + 1..] + [path[|path| - 1]];
      assert path == path[..|path| - 1] + [path[|path| - 1]];
      r
  }

  function TempName(transferId: nat, nonce: nat): string {
    ".leantty-" + Decimal(transferId) + "-" + Hex(nonce, 16) + ".part"
  }

  function RemoteTempPath(path: string, transferId: nat, nonce: nat): string {
    var slash := LastSlash(path);
    var directory := if slash.None? then "" else if slash.value == 0 then "/" else path[..slash.value];
    if directory == "" then TempName(transferId, nonce)
    else if directory == "/" then "/" + TempName(transferId, nonce)
    else directory + "/" + TempName(transferId, nonce)
  }

  lemma {:induction false} HexOfSmall(n: nat, digits: nat)
    requires n < 16 && digits > 0
    ensures |Hex(n, digits)| == digits && Hex(n, digits)[digits - 1] == HexDigit(n)
    ensures forall k :: 0 <= k < digits - 1 ==> Hex(n, digits)[k] == '0'
  {
    if digits > 1 {
      HexOfSmall(0, digits - 1);
    }
  }

  /** Beside `d/f`, for transfer 7 and nonce 171. */
  lemma TempPathExample()
    ensures RemoteTempPath("d/f", 7, 171) == "d/" + (".leantty-7-" + "00000000000000ab" + ".part")
    ensures RemoteTempPath("f", 7, 171) == ".leantty-7-" + "00000000000000ab" + ".part"
    ensures RemoteTempPath("/f", 7, 171) == "/" + (".leantty-7-" + "00000000000000ab" + ".part")
  {
    assert Decimal(7) == "7";
    HexOfSmall(10, 15);
    assert Hex(171, 16) == Hex(10, 15) + [HexDigit(11)];
    assert HexDigit(10) == 'a' && HexDigit(11) == 'b';
    assert Hex(171, 16) == "00000000000000ab";
    hide Decimal, Hex;
    LastSlashIs("d/f", 1);
    LastSlashIs("/f", 0);
    assert ".leantty-" + "7" + "-" == ".leantty-7-";
  }

  lemma {:induction false} HexInjective(n: nat, m: nat, digits: nat)
    requires Hex(n, digits) == Hex(m, digits) && n < Power16(digits) && m < Power16(digits)
    ensures n == m
  {
    if digits > 0 {
      var a, b := Hex(n / 16, digits - 1), Hex(m / 16, digits - 1);
      assert (a + [HexDigit(n % 16)])[..digits - 1] == a && (b + [HexDigit(m % 16)])[..digits - 1] == b;
      assert (a + [HexDigit(n % 16)])[digits - 1] == (b + [HexDigit(m % 16)])[digits - 1];
      assert n % 16 == m % 16;
      HexInjective(n / 16, m / 16, digits - 1);
    }
  }

  function Power16(n: nat): nat {
    if n == 0 then 1 else 16 * Power16(n - 1)
  }

  /** Different nonces give different temporary paths, so at most one of the 2^64 can collide with the target. */
  lemma TempPathsDiffer(path: string, transferId: nat, nonce: nat, other: nat)
    requires nonce < Power16(16) && other < Power16(16)
    requires RemoteTempPath(path, transferId, nonce) == RemoteTempPath(path, transferId, other)
    ensures nonce == other
  {
    hide Hex, Decimal, Power16, LastSlash;
    var front := ".leantty-" + Decimal(transferId) + "-";
    var slash := LastSlash(path);
    var directory := if slash.None? then "" else if slash.value == 0 then "/" else path[..slash.value];
    var head := (if directory == "" then "" else if directory == "/" then "/" else directory + "/") + front;
    var p, q := RemoteTempPath(path, transferId, nonce), RemoteTempPath(path, transferId, other);
    assert p == head + Hex(nonce, 16) + ".part";
    assert q == head + Hex(other, 16) + ".part";
    assert p[|head|..|head| + 16] == Hex(nonce, 16) && q[|head|..|head| + 16] == Hex(other, 16);
    HexInjective(nonce, other, 16);
  }

  /** The temporary file lies beside the target: same directory, one name without a slash. */
  lemma TempBesideTarget(path: string, transferId: nat, nonce: nat)
    ensures var temp := RemoteTempPath(path, transferId, nonce);
            && (LastSlash(path).None? ==> LastSlash(temp).None?)
            && (LastSlash(path).Some? && path[..LastSlash(path).value] != "/" ==>
                  LastSlash(temp).Some? && temp[..LastSlash(temp).value] == path[..LastSlash(path).value])
  {
    hide Hex, Decimal;
    var name, slash := TempName(transferId, nonce), LastSlash(path);
    NameHasNoSlash(transferId, nonce);
    var temp := RemoteTempPath(path, transferId, nonce);
    if slash.Some? {
      var directory := path[..slash.value];
      if directory != "/" {
        assert temp == directory + "/" + name;
        LastSlashIs(temp, |directory|);
        assert temp[..|directory|] == directory;
      }
    } else {
      assert temp == name;
    }
  }

  lemma LastSlashIs(path: string, at: nat)
    requires at < |path| && path[at] == '/' && '/' !in path[at + 1..]
    ensures LastSlash(path) == Some(at)
  {
    hide LastSlash;
    var r := LastSlash(path);
    assert r.Some?;
  }

  lemma {:induction false} HexCharacters(n: nat, digits: nat)
    ensures '/' !in Hex(n, digits)
  {
    if digits > 0 {
      HexCharacters(n / 16, digits - 1);
    }
  }

  lemma NameHasNoSlash(transferId: nat, nonce: nat)
    ensures '/' !in TempName(transferId, nonce)
  {
    hide Hex, Decimal;
    ValueOfDecimal(transferId);
    HexCharacters(nonce, 16);
  }

  // ---- Uploading -----------------------------------------------------------

  datatype Update = Progress(transferred: nat, total: nat) | Finalizing(transferred: nat, total: nat)

  function WaitError<T>(w: Wait<T>, code: string): Failure {
    match w
    case CancelledWait => Cancelled
    case TimedOut => Failed("SFTP_TIMEOUT")
    case _ => Failed(code)
  }

  /** One own change touches the temporary path only, or puts complete content where the target did not exist. */
  predicate Safe(c: Change, temp: string, target: string, whole: seq<byte>) {
    && c.after - {temp, target} == c.before - {temp, target}
    && (SameAt(c.before, c.after, target)
        || (target !in c.before && target in c.after && c.after[target] == Regular(whole)))
  }

  predicate SameAt(before: Files, after: Files, path: string) {
    (path in before <==> path in after) && (path in before ==> after[path] == before[path])
  }

  ghost predicate AllSafe(log: seq<Change>, from: nat, temp: string, target: string, whole: seq<byte>) {
    forall i :: from <= i < |log| ==> Safe(log[i], temp, target, whole)
  }

  ghost predicate Appends(before: seq<Change>, after: seq<Change>, temp: string, target: string, whole: seq<byte>) {
    before <= after && AllSafe(after, |before|, temp, target, whole)
  }

  /** No own change touches the target. */
  ghost predicate TargetAlone(before: seq<Change>, after: seq<Change>, target: string) {
    before <= after && forall i :: |before| <= i < |after| ==> SameAt(after[i].before, after[i].after, target)
  }

  /** All of the source: as many bytes as announced, and all its content when that does not change. */
  ghost predicate WholeSource(script: seq<CopyStep>, total: nat, read: seq<byte>) {
    |read| == total && (Unchanged(script) && |script| > 0 ==> read == script[0].content)
  }

  lemma AloneTwice(a: seq<Change>, b: seq<Change>, c: seq<Change>, target: string)
    requires TargetAlone(a, b, target) && TargetAlone(b, c, target)
    ensures TargetAlone(a, c, target)
  {
    hide SameAt;
    assert forall i :: |a| <= i < |b| ==> c[i] == b[i];
  }

  /** Nobody else creates the target or the temporary file, and the server answers everything. */
  ghost predicate Calm(s: Server, temp: string, target: string) {
    forall k :: s.replies(k).Done? && temp !in s.others(k) && target !in s.others(k)
  }

  /** The commit: rename, and on refusal a look at who has the target. */
  method CommitUpload(s: Server, temp: string, target: string, ghost whole: seq<byte>) returns (r: Result<(), Failure>)
    requires s.owned == {temp} && temp != target && temp in s.files && s.files[temp] == Regular(whole)
    modifies s`files, s`clock, s`log
    ensures Appends(old(s.log), s.log, temp, target, whole)
    ensures r.Ok? ==> temp !in s.files && target in s.files && s.files[target] == Regular(whole)
    ensures r.Err? ==> r.error != Failed("REMOTE_CLEANUP")
    ensures r == Err(Failed("REMOTE_CONFLICT")) ==> target in s.files
    ensures Calm(s, temp, target) ==> r.Ok?
  {
    var w := s.Rename(temp, target);
    match w {
      case Ready(_) => return Ok(());
      case CancelledWait => return Err(Cancelled);
      case TimedOut => return Err(Failed("SFTP_TIMEOUT"));
      case _ =>
        var seen := s.Lstat(target);
        return Err(Failed(if seen.Ready? then "REMOTE_CONFLICT" else "REMOTE_COMMIT"));
    }
  }

  /** After a failure the temporary file goes away, or the failure says that it may not have. */
  method CleanUp(s: Server, temp: string, target: string, ghost whole: seq<byte>, error: Failure) returns (r: Failure)
    requires s.owned == {temp} && temp != target
    modifies s`files, s`clock, s`log
    ensures Appends(old(s.log), s.log, temp, target, whole)
    ensures TargetAlone(old(s.log), s.log, target)
    ensures r == error || r == Failed("REMOTE_CLEANUP")
    ensures r != Failed("REMOTE_CLEANUP") ==> temp !in s.files
    ensures Calm(s, temp, target) ==> r == error
  {
    var w := s.Remove(temp);
    if w.Ready? || w.NoSuchFile? {
      return error;
    }
    return Failed("REMOTE_CLEANUP");
  }

  lemma AppendsTwice(a: seq<Change>, b: seq<Change>, c: seq<Change>, temp: string, target: string, whole: seq<byte>)
    requires Appends(a, b, temp, target, whole) && Appends(b, c, temp, target, whole)
    ensures Appends(a, c, temp, target, whole)
  {
    hide Safe;
    assert forall i :: |a| <= i < |b| ==> c[i] == b[i];
  }

  /** What was sent reaches the temporary file, in part until it is closed. */
  method FlushAndClose(s: Server, temp: string, ghost target: string, content: seq<byte>) returns (closed: Wait<()>)
    requires s.owned == {temp} && temp in s.files && temp != target
    modifies s`files, s`clock, s`log
    ensures TargetAlone(old(s.log), s.log, target) && temp in s.files
    ensures forall whole :: Appends(old(s.log), s.log, temp, target, whole)
    ensures closed.Ready? ==> s.files[temp] == Regular(content)
    ensures Calm(s, temp, target) ==> closed.Ready?
  {
    s.Flush(temp, content);
    closed := s.Close(temp, content);
    assert s.log[..|s.log| - 2] == old(s.log);
  }

  /** Copies the source into the temporary file and closes it, whatever became of the copy. */
  method SendAndClose(s: Server, total: nat, script: seq<CopyStep>, temp: string, ghost target: string)
    returns (r: Result<nat, Failure>, read: seq<byte>, updates: seq<Update>)
    requires s.owned == {temp} && temp in s.files && temp != target
    modifies s`files, s`clock, s`log
    ensures Appends(old(s.log), s.log, temp, target, read) && temp in s.files
    ensures TargetAlone(old(s.log), s.log, target)
    ensures r.Ok? ==> r.value == total && WholeSource(script, total, read) && s.files[temp] == Regular(read)
    ensures Unchanged(script) && |script| > 0 ==> read <= script[0].content
    ensures Calm(s, temp, target) && Undisturbed(script) && r.Err? ==> CopyExplained(script, Some(total), r.error, read)
    ensures r.Ok? ==> |updates| > 0 && updates[|updates| - 1] == Finalizing(total, total)
  {
    hide Undisturbed, Ascending, CopyExplained, TargetAlone, Appends;
    var destination := new Destination();
    var copied, bytes, progress := CopyWithCancel(script, Some(total), "READ", destination);
    read := bytes;
    updates := seq(|progress|, i requires 0 <= i < |progress| => Progress(progress[i], total));
    if copied.Ok? {
      updates := updates + [Finalizing(copied.value, total)];
    }
    var closed := FlushAndClose(s, temp, target, destination.content);
    if copied.Err? {
      return Err(copied.error), read, updates;
    }
    if !closed.Ready? {
      return Err(WaitError(closed, "REMOTE_CLOSE")), read, updates;
    }
    return Ok(copied.value), read, updates;
  }

  /** From the acknowledged temporary file to the result. */
  method UploadBody(s: Server, total: nat, script: seq<CopyStep>, temp: string, target: string)
    returns (r: Result<(nat, nat), Failure>, read: seq<byte>, updates: seq<Update>)
    requires s.owned == {temp} && temp in s.files && temp != target
    modifies s`files, s`clock, s`log
    ensures Appends(old(s.log), s.log, temp, target, read)
    ensures TargetAlone(old(s.log), s.log, target) || WholeSource(script, total, read)
    ensures r.Ok? ==> WholeSource(script, total, read) && r.value == (total, total)
    ensures r.Ok? ==> temp !in s.files && target in s.files && s.files[target] == Regular(read)
    ensures r.Err? && r.error != Failed("REMOTE_CLEANUP") ==> temp !in s.files
    ensures Unchanged(script) && |script| > 0 ==> read <= script[0].content
    ensures Calm(s, temp, target) && Undisturbed(script) && r.Err? ==> CopyExplained(script, Some(total), r.error, read)
    ensures r.Ok? ==> |updates| > 0 && updates[|updates| - 1] == Finalizing(total, total)
  {
    hide Unchanged, Undisturbed, Appends, TargetAlone, WholeSource, Calm, CopyExplained;
    ghost var start := s.log;
    var sent, bytes, reported := SendAndClose(s, total, script, temp, target);
    read, updates := bytes, reported;
    ghost var closed := s.log;
    var error: Failure;
    if sent.Err? {
      error := sent.error;
    } else {
      var committed := CommitUpload(s, temp, target, read);
      AppendsTwice(start, closed, s.log, temp, target, read);
      if committed.Ok? {
        return Ok((sent.value, total)), read, updates;
      }
      error := committed.error;
    }
    ghost var middle := s.log;
    error := CleanUp(s, temp, target, read, error);
    AppendsTwice(start, middle, s.log, temp, target, read);
    if sent.Err? {
      AloneTwice(start, middle, s.log, target);
    }
    return Err(error), read, updates;
  }

  /** Creates the temporary file; the target is not touched. */
  method CreateTemp(s: Server, temp: string, ghost target: string) returns (w: Wait<()>)
    requires s.owned == {} && temp != target
    modifies s
    ensures TargetAlone(old(s.log), s.log, target)
    ensures forall whole :: Appends(old(s.log), s.log, temp, target, whole)
    ensures w.Ready? ==> s.owned == {temp} && temp in s.files
    ensures !w.Ready? ==> s.owned == {}
    ensures Calm(s, temp, target) ==> w.Ready?
  {
    w := s.OpenExclusive(temp);
    assert s.log[..|s.log| - 1] == old(s.log);
  }

  datatype Upload = Upload(result: Result<(nat, nat), Failure>, created: bool, read: seq<byte>, updates: seq<Update>)

  /** What the look at the target before anything is created decides: a folder or any other node in the way, no answer,
      a cancel, a timeout; only an absent target lets the upload begin. */
  predicate FirstLook(reply: Reply, others: Files, target: string, u: Upload) {
    match reply
    case Done =>
      target in others ==>
        !u.created && u.result == Err(Failed(if others[target].Folder? then "REMOTE_PATH" else "REMOTE_CONFLICT"))
    case Refused => !u.created && u.result == Err(Failed("REMOTE_METADATA"))
    case Lost(_) => !u.created && u.result == Err(Failed("REMOTE_METADATA"))
    case Cut(_) => !u.created && u.result == Err(Cancelled)
    case Late(_) => !u.created && u.result == Err(Failed("SFTP_TIMEOUT"))
  }

  /** A whole upload, for every behaviour of the source, the connection and the other clients. `size` is the local
      file's length when the upload begins, or none when that cannot be read; `created` says whether the creation of the
      temporary file was acknowledged. */
  method Put(s: Server, size: Option<nat>, script: seq<CopyStep>, target: string, transferId: nat, nonce: nat)
    returns (u: Upload)
    requires s.owned == {} && RemoteTempPath(target, transferId, nonce) != target
    modifies s
    ensures var temp := RemoteTempPath(target, transferId, nonce); Appends(old(s.log), s.log, temp, target, u.read)
    ensures var temp := RemoteTempPath(target, transferId, nonce);
            && (u.result.Ok? ==>
                u.created && temp !in s.files && target in s.files && s.files[target] == Regular(u.read))
            && (u.created && u.result.Err? && u.result.error != Failed("REMOTE_CLEANUP") ==> temp !in s.files)
            && s.owned == (if u.created then {temp} else {})
            && (size.Some? && Calm(s, temp, target) && Undisturbed(script) && u.result.Err? ==>
                  CopyExplained(script, size, u.result.error, u.read))
    ensures TargetAlone(old(s.log), s.log, target) || (size.Some? && WholeSource(script, size.value, u.read))
    ensures u.result.Ok? ==>
            size.Some? && WholeSource(script, size.value, u.read) && u.result.value == (size.value, size.value)
    ensures !u.created ==> u.result.Err? && u.read == []
    ensures size.Some? && s.replies(old(s.clock)).Done? && target in s.others(old(s.clock)) ==>
            s.log == old(s.log) && u.result.Err?
    ensures !u.created && u.result.error == Failed("REMOTE_CONFLICT") ==> s.log == old(s.log) && target in s.files
    ensures size.None? ==> u.result == Err(Failed("LOCAL_METADATA")) && s.log == old(s.log) && s.clock == old(s.clock)
    ensures size.Some? ==> FirstLook(s.replies(old(s.clock)), s.others(old(s.clock)), target, u)
  {
    if size.None? {
      return Upload(Err(Failed("LOCAL_METADATA")), false, [], []);
    }
    var updates := [Progress(0, size.value)];
    var seen := s.Lstat(target);
    match seen {
      case Ready(node) =>
        return Upload(Err(Failed(if node.Folder? then "REMOTE_PATH" else "REMOTE_CONFLICT")), false, [], updates);
      case NoSuchFile =>
      case _ =>
        return Upload(Err(WaitError(seen, "REMOTE_METADATA")), false, [], updates);
    }
    var temp := RemoteTempPath(target, transferId, nonce);
    hide RemoteTempPath, CopyExplained, Undisturbed, WholeSource, TargetAlone, Appends;
    var creation := CreateTemp(s, temp, target);
    if !creation.Ready? {
      return Upload(Err(WaitError(creation, "REMOTE_TEMP_CREATE")), false, [], updates);
    }
    ghost var created := s.log;
    var result, read, more := UploadBody(s, size.value, script, temp, target);
    AppendsTwice(old(s.log), created, s.log, temp, target, read);
    if TargetAlone(created, s.log, target) {
      AloneTwice(old(s.log), created, s.log, target);
    }
    return Upload(result, true, read, updates + more);
  }

  // ---- Downloading ---------------------------------------------------------

  /** A download: the remote script plays the part of the source; `size` is what the opened file reports, if
      anything. */
  datatype RemoteSource =
      RemoteSource(seen: Wait<Node>, open: Wait<()>, size: Wait<Option<nat>>, regular: bool, close: Wait<()>)

  datatype LocalEnd = LocalEnd(flush: Wait<()>, sync: Wait<()>)

  /** The server answers everything about a regular file, and the local file takes everything. */
  predicate AllReady(source: RemoteSource, end: LocalEnd) {
    && source.seen.Ready? && source.seen.value.Regular? && source.open.Ready? && source.size.Ready? && source.regular
    && source.close.Ready? && end.flush.Ready? && end.sync.Ready?
  }

  /** Reads the remote file into an empty local one. */
  method Get(source: RemoteSource, script: seq<CopyStep>, local: Destination, end: LocalEnd)
    returns (r: Result<(nat, nat), Failure>, read: seq<byte>)
    requires local.content == []
    modifies local
    ensures local.content <= read
    ensures r.Ok? ==> local.content == read && r.value.0 == |read|
    ensures r.Ok? ==>
            source.size.Ready? && r.value.1 == (if source.size.value.Some? then source.size.value.value else 0)
    ensures r.Ok? && source.size.value.Some? ==> r.value.0 == r.value.1
    ensures r.Ok? && Unchanged(script) && |script| > 0 ==> local.content == script[0].content
    ensures r.Ok? ==>
            source.seen.Ready? && source.seen.value.Regular? && source.regular && end.flush.Ready? && end.sync.Ready?
    ensures !(source.seen.Ready? && source.seen.value.Regular? && source.open.Ready? && source.size.Ready?
            && source.regular) ==>
              r.Err? && local.content == []
    ensures AllReady(source, end) && Undisturbed(script) && r.Err? ==>
            CopyExplained(script, source.size.value, r.error, read)
    ensures source.seen.NoSuchFile? ==> r == Err(Failed("REMOTE_NOT_FOUND"))
    ensures source.seen.Ready? && (!source.seen.value.Regular?
                                   || (source.open.Ready? && source.size.Ready? && !source.regular)) ==>
              r == Err(Failed("REMOTE_PATH"))
  {
    hide CopyExplained, Undisturbed;
    read := [];
    match source.seen {
      case Ready(node) =>
        if !node.Regular? {
          return Err(Failed("REMOTE_PATH")), read;
        }
      case NoSuchFile => return Err(Failed("REMOTE_NOT_FOUND")), read;
      case _ => return Err(WaitError(source.seen, "REMOTE_METADATA")), read;
    }
    if !source.open.Ready? {
      return Err(WaitError(source.open, "REMOTE_OPEN")), read;
    }
    if !source.size.Ready? {
      return Err(WaitError(source.size, "REMOTE_METADATA")), read;
    }
    if !source.regular {
      return Err(Failed("REMOTE_PATH")), read;
    }
    var expected := source.size.value;
    var total := if expected.Some? then expected.value else 0;
    var copied, bytes, _ := CopyWithCancel(script, expected, "NETWORK", local);
    read := bytes;
    if copied.Err? {
      return Err(copied.error), read;
    }
    if !source.close.Ready? {
      return Err(WaitError(source.close, "REMOTE_CLOSE")), read;
    }
    if !end.flush.Ready? {
      return Err(WaitError(end.flush, "LOCAL_FLUSH")), read;
    }
    if !end.sync.Ready? {
      return Err(WaitError(end.sync, "LOCAL_SYNC")), read;
    }
    return Ok((copied.value, total)), read;
  }
}
