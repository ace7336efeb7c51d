/** Changing the comment of a key pair as one transaction over two files. */
module KeyComment {
  import opened Basics
  import opened KeyFiles

  const MAX_COMMENT_BYTES := 1023

  /** A key once unlocked. A comment that is not UTF-8 reads as none. */
  datatype Key = Key(fingerprint: int, keyData: int, comment: Option<string>)

  datatype PublicKey = PublicKey(keyData: int, comment: Option<string>)

  datatype Pair = Pair(private: Bytes, public: Bytes)

  /** The key formats: any functions at all. `encrypted` is none for text that does not parse, `unlock` for a wrong
      passphrase; `rewrite` may produce anything. */
  datatype Formats = Formats(
    encrypted: Bytes -> Option<bool>,
    plain: Bytes -> Key,
    unlock: (Bytes, string) -> Option<Key>,
    public: Bytes -> Option<PublicKey>,
    rewrite: (Bytes, string, string) -> Option<Pair>)

  datatype Error =
    | InvalidComment | ReadFailed | ParseFailed | WrongPassphrase | Mismatch | NotUtf8 | EncodeFailed
    | NoName | StageFailed | VerifyFailed | BackupFailed | CommitFailed | PublicFailed(restored: bool) | SyncFailed

  predicate ValidComment(comment: string, bytes: nat) {
    bytes <= MAX_COMMENT_BYTES && forall k :: 0 <= k < |comment| ==> !IsControl(comment[k])
  }

  lemma CommentRefused(comment: string, bytes: nat)
    ensures !ValidComment(comment, bytes) <==>
              bytes > 1023 || exists c :: c in comment && (c as int < 32 || 127 <= c as int <= 159)
  {
    if bytes <= 1023 && !ValidComment(comment, bytes) {
      var k :| 0 <= k < |comment| && IsControl(comment[k]);
      assert comment[k] in comment;
    }
  }

  /** The key in a private file, opened with a passphrase when it is encrypted. */
  function Opened(f: Formats, file: Bytes, passphrase: string): Option<Key> {
    match f.encrypted(file)
    case None => None
    case Some(encrypted) => if encrypted then f.unlock(file, passphrase) else Some(f.plain(file))
  }

  /** A pair the transaction accepts: it opens, with no passphrase for a plain key, and both halves are one key. */
  predicate Readable(f: Formats, o: Pair, passphrase: string) {
    && Opened(f, o.private, passphrase).Some?
    && (f.encrypted(o.private) == Some(false) ==> passphrase == "")
    && f.public(o.public).Some?
    && f.public(o.public).value.keyData == Opened(f, o.private, passphrase).value.keyData
    && Opened(f, o.private, passphrase).value.comment.Some?
    && f.public(o.public).value.comment.Some?
  }

  /** What makes a pair unacceptable: text that is no key, a wrong passphrase or one for a plain key, halves of two
      keys, and comments that are not text. */
  lemma UnreadablePairs(f: Formats, o: Pair, passphrase: string)
    ensures f.encrypted(o.private) == None || f.public(o.public) == None ==> !Readable(f, o, passphrase)
    ensures f.encrypted(o.private) == Some(true) && f.unlock(o.private, passphrase) == None ==>
              !Readable(f, o, passphrase)
    ensures f.encrypted(o.private) == Some(false) && passphrase != "" ==> !Readable(f, o, passphrase)
    ensures f.encrypted(o.private) == Some(false) && f.public(o.public).Some? && passphrase == "" ==>
              (Readable(f, o, passphrase) <==>
                 && f.public(o.public).value.keyData == f.plain(o.private).keyData
                 && f.public(o.public).value.comment.Some? && f.plain(o.private).comment.Some?)
    ensures f.encrypted(o.private) == Some(true) && f.public(o.public).Some?
            && f.unlock(o.private, passphrase).Some? ==>
              (Readable(f, o, passphrase) <==>
                 && f.public(o.public).value.keyData == f.unlock(o.private, passphrase).value.keyData
                 && f.public(o.public).value.comment.Some? && f.unlock(o.private, passphrase).value.comment.Some?)
  {
  }

  /** The staged pair is the original key, encrypted or not as before, with the new comment in both files. */
  predicate Verified(f: Formats, o: Pair, n: Pair, passphrase: string, comment: string)
    requires Readable(f, o, passphrase)
  {
    var original := Opened(f, o.private, passphrase).value;
    && f.encrypted(n.private) == f.encrypted(o.private)
    && Opened(f, n.private, passphrase) == Some(Key(original.fingerprint, original.keyData, Some(comment)))
    && f.public(n.public) == Some(PublicKey(original.keyData, Some(comment)))
  }

  /** The transaction's inputs; `bytes` is the UTF-8 length of the comment. */
  datatype Job = Job(file: string, passphrase: string, comment: string, bytes: nat, pid: nat)

  predicate HasPair(files: Files, file: string) {
    file in files && PublicName(file) in files
  }

  function PairIn(files: Files, file: string): Pair
    requires HasPair(files, file)
  {
    Pair(files[file], files[PublicName(file)])
  }

  /** Whether the transaction may replace anything: the original pair is readable and the new one verified. */
  predicate Committable(f: Formats, o: Pair, job: Job) {
    && Readable(f, o, job.passphrase)
    && f.rewrite(o.private, job.passphrase, job.comment).Some?
    && Verified(f, o, f.rewrite(o.private, job.passphrase, job.comment).value, job.passphrase, job.comment)
  }

  /** What the two files may hold while and after the transaction runs. */
  predicate Held(f: Formats, o: Pair, job: Job, files: Files) {
    && HasPair(files, job.file)
    && var p := PairIn(files, job.file);
       || p == o
       || (Committable(f, o, job) &&
           var n := f.rewrite(o.private, job.passphrase, job.comment).value; p == n || p == Pair(n.private, o.public))
  }

  /** At every step both files hold the original identity, and the passphrase still opens the private one. */
  lemma IdentityKept(f: Formats, o: Pair, job: Job, files: Files)
    requires Readable(f, o, job.passphrase) && Held(f, o, job, files)
    ensures var p, original := PairIn(files, job.file), Opened(f, o.private, job.passphrase).value;
            && Opened(f, p.private, job.passphrase).Some?
            && f.encrypted(p.private) == f.encrypted(o.private)
            && Opened(f, p.private, job.passphrase).value.fingerprint == original.fingerprint
            && Opened(f, p.private, job.passphrase).value.keyData == original.keyData
            && f.public(p.public).Some? && f.public(p.public).value.keyData == original.keyData
  {
  }

  function Auxiliary(n: AuxNames): set<string> {
    {n.privateTemporary, n.publicTemporary, n.privateBackup, n.publicBackup}
  }

  /** The directory's history went on from `before` through states that hold the pair. */
  ghost predicate Grown(f: Formats, o: Pair, job: Job, before: seq<Files>, after: seq<Files>) {
    before <= after && forall i :: |before| <= i < |after| ==> Held(f, o, job, after[i])
  }

  lemma DistinctNames(n: AuxNames, file: string)
    requires Distinct(n, file)
    ensures file != PublicName(file) && file !in Auxiliary(n) && PublicName(file) !in Auxiliary(n)
    ensures n.privateTemporary !in {n.publicTemporary, n.privateBackup, n.publicBackup}
    ensures n.publicTemporary !in {n.privateBackup, n.publicBackup} && n.privateBackup != n.publicBackup
  {
    var all := [file, PublicName(file), n.privateTemporary, n.publicTemporary, n.privateBackup, n.publicBackup];
    assert all[0] != all[1] && all[0] != all[2] && all[0] != all[3] && all[0] != all[4] && all[0] != all[5];
    assert all[1] != all[2] && all[1] != all[3] && all[1] != all[4] && all[1] != all[5];
    assert all[2] != all[3] && all[2] != all[4] && all[2] != all[5] && all[3] != all[4] && all[3] != all[5]
           && all[4] != all[5];
  }

  /** Outside the transaction's own files nothing differs, so the pair is there as before. */
  lemma PairUntouched(before: Files, after: Files, n: AuxNames, file: string)
    requires Distinct(n, file) && HasPair(before, file) && after - Auxiliary(n) == before - Auxiliary(n)
    ensures HasPair(after, file) && PairIn(after, file) == PairIn(before, file)
  {
    hide PublicName, Distinct, Auxiliary;
    DistinctNames(n, file);
    var kept := before - Auxiliary(n);
    assert file in kept && PublicName(file) in kept;
    assert file in after - Auxiliary(n) && PublicName(file) in after - Auxiliary(n);
  }

  /** Errors found before anything is written. */
  predicate Early(e: Error) {
    e.InvalidComment? || e.ReadFailed? || e.ParseFailed? || e.WrongPassphrase? || e.Mismatch? || e.NotUtf8?
        || e.EncodeFailed?
  }

  /** Errors of the transaction itself. */
  predicate Late(e: Error) {
    !Early(e) && !e.NoName?
  }

  // ---- Before anything is written ------------------------------------------------

  /** Both files carry the comment already. */
  predicate Already(f: Formats, o: Pair, job: Job)
    requires Readable(f, o, job.passphrase)
  {
    && Opened(f, o.private, job.passphrase).value.comment == Some(job.comment)
    && f.public(o.public).value.comment == Some(job.comment)
  }

  /** Nothing in the inputs stands in the way. */
  predicate Prepared(f: Formats, job: Job, files: Files) {
    && ValidComment(job.comment, job.bytes) && HasPair(files, job.file)
    && var o := PairIn(files, job.file);
       && Readable(f, o, job.passphrase)
       && (Already(f, o, job) || f.rewrite(o.private, job.passphrase, job.comment).Some?)
  }

  /** What each refusal before any writing says about the inputs. */
  ghost predicate Cause(f: Formats, job: Job, files: Files, faults: nat -> Fault, start: nat, e: Error) {
    match e
    case InvalidComment => !ValidComment(job.comment, job.bytes)
    case ReadFailed => !HasPair(files, job.file) || !FineBetween(faults, start, start + 2)
    case ParseFailed =>
      && HasPair(files, job.file)
      && (f.encrypted(files[job.file]).None? || f.public(files[PublicName(job.file)]).None?)
    case WrongPassphrase =>
      && job.file in files
      && (|| (f.encrypted(files[job.file]) == Some(true) && f.unlock(files[job.file], job.passphrase).None?)
          || (f.encrypted(files[job.file]) == Some(false) && job.passphrase != ""))
    case Mismatch =>
      && HasPair(files, job.file) && f.public(files[PublicName(job.file)]).Some?
      && Opened(f, files[job.file], job.passphrase).Some?
      && f.public(files[PublicName(job.file)]).value.keyData != Opened(f, files[job.file], job.passphrase).value.keyData
    case NotUtf8 =>
      && HasPair(files, job.file) && f.public(files[PublicName(job.file)]).Some?
      && Opened(f, files[job.file], job.passphrase).Some?
      && (|| Opened(f, files[job.file], job.passphrase).value.comment.None?
          || f.public(files[PublicName(job.file)]).value.comment.None?)
    case EncodeFailed => job.file in files && f.rewrite(files[job.file], job.passphrase, job.comment).None?
    case _ => true
  }

  /** Reads and checks both files; no new pair means that both already carry the comment. */
  method Prepare(d: Directory, f: Formats, job: Job)
    returns (r: Result<(string, Pair, Option<Pair>), Error>)
    modifies d`clock
    ensures r.Ok? ==>
              && HasPair(d.files, job.file)
              && var o := PairIn(d.files, job.file);
                 && Readable(f, o, job.passphrase)
                 && Opened(f, o.private, job.passphrase).value.comment == Some(r.value.0)
                 && r.value.1 == o
                 && (r.value.2.None? <==> Already(f, o, job))
                 && (r.value.2.Some? ==> f.rewrite(o.private, job.passphrase, job.comment) == r.value.2)
    ensures r.Err? ==> Early(r.error)
    ensures r == Err(InvalidComment) <==> !ValidComment(job.comment, job.bytes)
    ensures r.Err? ==> Cause(f, job, d.files, d.faults, old(d.clock), r.error)
    ensures old(d.clock) <= d.clock <= old(d.clock) + 2
    ensures r.Ok? <==> Prepared(f, job, d.files) && FineBetween(d.faults, old(d.clock), old(d.clock) + 2)
    ensures r.Ok? ==> d.clock == old(d.clock) + 2
  {
    if !ValidComment(job.comment, job.bytes) {
      return Err(InvalidComment);
    }
    var private := d.Read(job.file);
    if private.None? {
      return Err(ReadFailed);
    }
    var public := d.Read(PublicName(job.file));
    if public.None? {
      return Err(ReadFailed);
    }
    var wasEncrypted := f.encrypted(private.value);
    if wasEncrypted.None? {
      return Err(ParseFailed);
    }
    var key: Key;
    if wasEncrypted.value {
      var unlocked := f.unlock(private.value, job.passphrase);
      if unlocked.None? {
        return Err(WrongPassphrase);
      }
      key := unlocked.value;
    } else {
      if job.passphrase != "" {
        return Err(WrongPassphrase);
      }
      key := f.plain(private.value);
    }
    var parsedPublic := f.public(public.value);
    if parsedPublic.None? {
      return Err(ParseFailed);
    }
    if parsedPublic.value.keyData != key.keyData {
      return Err(Mismatch);
    }
    if key.comment.None? || parsedPublic.value.comment.None? {
      return Err(NotUtf8);
    }
    if key.comment.value == job.comment && parsedPublic.value.comment.value == job.comment {
      return Ok((key.comment.value, Pair(private.value, public.value), None));
    }
    var updated := f.rewrite(private.value, job.passphrase, job.comment);
    if updated.None? {
      return Err(EncodeFailed);
    }
    return Ok((key.comment.value, Pair(private.value, public.value), updated));
  }

  lemma OtherFile(files: Files, job: Job, target: string, role: string, extension: string)
    requires (target == job.file || target == PublicName(job.file)) && |extension| == 3
    requires CommentAuxName(target, role, job.pid, 0, extension) in files
    ensures exists x :: x in files && x != job.file && x != PublicName(job.file)
  {
    hide CommentAuxName;
    var name, zero: nat := CommentAuxName(target, role, job.pid, 0, extension), 0;
    assert name == CommentAuxName(target, role, job.pid, zero, extension);
    AuxShape(name, target, role, job.pid, extension);
  }

  method Candidate(d: Directory, job: Job, target: string, role: string, extension: string) returns (r: Option<string>)
    ensures r.Some? ==> FromTarget(r.value, target, role, job.pid, extension) && r.value !in d.files
    ensures r.None? <==> CommentNamesTaken(d.files, target, role, job.pid, extension)
  {
    hide CommentAuxName, CommentNamesTaken;
    r := CreateCommentAuxName(d, target, role, job.pid, extension);
  }

  /** For one of the four files of a transaction every candidate exists already. */
  predicate NamesTaken(files: Files, job: Job) {
    || CommentNamesTaken(files, job.file, "private", job.pid, "tmp")
    || CommentNamesTaken(files, PublicName(job.file), "public", job.pid, "tmp")
    || CommentNamesTaken(files, job.file, "private", job.pid, "bak")
    || CommentNamesTaken(files, PublicName(job.file), "public", job.pid, "bak")
  }

  /** Candidates are longer than the names of the pair, so beside no other file one is free. */
  lemma NamesFree(files: Files, job: Job)
    requires forall x :: x in files ==> x == job.file || x == PublicName(job.file)
    ensures !NamesTaken(files, job)
  {
    hide CommentAuxName;
    forall target, role, extension |
      && (target == job.file || target == PublicName(job.file))
      && (extension == "tmp" || extension == "bak") && CommentNamesTaken(files, target, role, job.pid, extension)
      ensures false
    {
      OtherFile(files, job, target, role, extension);
    }
  }

  method Allocate(d: Directory, job: Job) returns (r: Option<AuxNames>)
    ensures r.Some? ==> AuxOf(r.value, job.file, job.pid) && Auxiliary(r.value) !! d.files.Keys
    ensures r.None? <==> NamesTaken(d.files, job)
  {
    hide FromTarget, CommentNamesTaken;
    var privateTemporary := Candidate(d, job, job.file, "private", "tmp");
    if privateTemporary.None? { return None; }
    var publicTemporary := Candidate(d, job, PublicName(job.file), "public", "tmp");
    if publicTemporary.None? { return None; }
    var privateBackup := Candidate(d, job, job.file, "private", "bak");
    if privateBackup.None? { return None; }
    var publicBackup := Candidate(d, job, PublicName(job.file), "public", "bak");
    if publicBackup.None? { return None; }
    return Some(AuxNames(privateTemporary.value, publicTemporary.value, privateBackup.value, publicBackup.value));
  }

  // ---- The transaction's steps ---------------------------------------------------

  /** The temporary files hold the new pair. */
  predicate Staged(files: Files, n: AuxNames, updated: Pair) {
    && n.privateTemporary in files && files[n.privateTemporary] == updated.private
    && n.publicTemporary in files && files[n.publicTemporary] == updated.public
  }

  method Stage(d: Directory, ghost f: Formats, ghost o: Pair, job: Job, n: AuxNames, updated: Pair) returns (ok: bool)
    requires Distinct(n, job.file) && Auxiliary(n) !! d.files.Keys
    requires HasPair(d.files, job.file) && PairIn(d.files, job.file) == o
    modifies d
    ensures old(d.clock) <= d.clock <= old(d.clock) + 2 && d.files - Auxiliary(n) == old(d.files) - Auxiliary(n)
    ensures Grown(f, o, job, old(d.history), d.history)
    ensures ok <==> FineBetween(d.faults, old(d.clock), old(d.clock) + 2)
    ensures ok ==> d.clock == old(d.clock) + 2
    ensures ok ==> Staged(d.files, n, updated)
  {
    hide PublicName, Distinct, PairIn, HasPair;
    DistinctNames(n, job.file);
    ghost var start := d.files;
    ok := d.CreateNew(n.privateTemporary, updated.private);
    PairUntouched(start, d.files, n, job.file);
    if ok {
      ok := d.CreateNew(n.publicTemporary, updated.public);
      PairUntouched(start, d.files, n, job.file);
    }
  }

  /** Reads the staged files back. */
  method VerifyStaged(d: Directory, f: Formats, o: Pair, job: Job, n: AuxNames, updated: Pair) returns (ok: bool)
    requires Staged(d.files, n, updated)
    requires Readable(f, o, job.passphrase)
    modifies d`clock
    ensures old(d.clock) <= d.clock <= old(d.clock) + 2
    ensures ok <==>
              Verified(f, o, updated, job.passphrase, job.comment)
              && FineBetween(d.faults, old(d.clock), old(d.clock) + 2)
    ensures ok ==> d.clock == old(d.clock) + 2
  {
    var original := Opened(f, o.private, job.passphrase).value;
    var private := d.Read(n.privateTemporary);
    if private.None? {
      return false;
    }
    var encrypted := f.encrypted(private.value);
    if encrypted.None? || encrypted != f.encrypted(o.private) {
      return false;
    }
    var key := if encrypted.value then f.unlock(private.value, job.passphrase) else Some(f.plain(private.value));
    if key.None? {
      return false;
    }
    var publicText := d.Read(n.publicTemporary);
    if publicText.None? {
      return false;
    }
    var public := f.public(publicText.value);
    if public.None? {
      return false;
    }
    return key.value.fingerprint == original.fingerprint && key.value.keyData == original.keyData
      && public.value.keyData == original.keyData
      && key.value.comment == Some(job.comment) && public.value.comment == Some(job.comment);
  }

  method BackUp(d: Directory, ghost f: Formats, ghost o: Pair, job: Job, n: AuxNames, updated: Pair) returns (ok: bool)
    requires Distinct(n, job.file) && Staged(d.files, n, updated)
    requires HasPair(d.files, job.file) && PairIn(d.files, job.file) == o
    modifies d
    ensures old(d.clock) <= d.clock <= old(d.clock) + 2 && d.files - Auxiliary(n) == old(d.files) - Auxiliary(n)
    ensures Grown(f, o, job, old(d.history), d.history)
    ensures ok <==> FineBetween(d.faults, old(d.clock), old(d.clock) + 2)
    ensures ok ==> d.clock == old(d.clock) + 2
    ensures ok ==> Staged(d.files, n, updated) && n.privateBackup in d.files && d.files[n.privateBackup] == o.private
  {
    hide PublicName, Distinct;
    DistinctNames(n, job.file);
    ghost var start := d.files;
    ok := d.Copy(job.file, n.privateBackup);
    CopyKeeps(start, d.files, n.privateBackup, n);
    PairUntouched(start, d.files, n, job.file);
    if ok {
      ghost var middle := d.files;
      ok := d.Copy(PublicName(job.file), n.publicBackup);
      CopyKeeps(middle, d.files, n.publicBackup, n);
      PairUntouched(start, d.files, n, job.file);
    }
  }

  lemma CopyKeeps(before: Files, after: Files, name: string, n: AuxNames)
    requires name in Auxiliary(n) && after - {name} == before - {name}
    ensures after - Auxiliary(n) == before - Auxiliary(n)
  {
    hide Auxiliary;
    forall x | x !in Auxiliary(n) ensures (x in after <==> x in before) && (x in before ==> after[x] == before[x]) {
      assert x in after <==> x in after - {name};
      assert x in before <==> x in before - {name};
      assert x in before ==> after[x] == (after - {name})[x] == (before - {name})[x];
    }
  }

  /** How the renames end that begin at a tick: the private file, the public one, and putting the private one back. */
  function RenameVerdict(faults: nat -> Fault, start: nat): Result<(), Error> {
    if faults(start).Fails? then Err(CommitFailed)
    else if faults(start + 1).Fails? then Err(PublicFailed(faults(start + 2).Fine?))
    else Ok(())
  }

  /** After both renames two backups are removed, whatever comes of it, and then the directory is synced. */
  function Verdict(faults: nat -> Fault, start: nat): Result<(), Error> {
    var renamed := RenameVerdict(faults, start);
    if renamed.Ok? && faults(start + 4).Fails? then Err(SyncFailed) else renamed
  }

  /** Moves both files into place; puts the private one back when the public one cannot follow. */
  method Replace(d: Directory, ghost f: Formats, ghost o: Pair, job: Job, n: AuxNames, updated: Pair)
    returns (r: Result<(), Error>)
    requires Distinct(n, job.file) && Staged(d.files, n, updated)
    requires n.privateBackup in d.files && d.files[n.privateBackup] == o.private
    requires HasPair(d.files, job.file) && PairIn(d.files, job.file) == o
    requires Committable(f, o, job) && f.rewrite(o.private, job.passphrase, job.comment) == Some(updated)
    modifies d
    ensures d.clock > old(d.clock) && Grown(f, o, job, old(d.history), d.history)
    ensures d.files - Touched(n, job.file) == old(d.files) - Touched(n, job.file)
    ensures HasPair(d.files, job.file) && Outcome(r, o, updated, PairIn(d.files, job.file))
    ensures r == RenameVerdict(d.faults, old(d.clock)) && (r.Err? ==> Late(r.error))
    ensures r.Err? && r.error.PublicFailed? ==> d.clock == old(d.clock) + 3
    ensures r.Ok? ==> d.clock == old(d.clock) + 2
  {
    hide Readable, Verified;
    DistinctNames(n, job.file);
    var committed := d.Rename(n.privateTemporary, job.file);
    if !committed {
      return Err(CommitFailed);
    }
    var followed := d.Rename(n.publicTemporary, PublicName(job.file));
    if !followed {
      var restored := d.Rename(n.privateBackup, job.file);
      return Err(PublicFailed(restored));
    }
    return Ok(());
  }

  /** Drops the backups and syncs the directory. */
  method Settle(d: Directory, ghost f: Formats, ghost o: Pair, job: Job, n: AuxNames) returns (ok: bool)
    requires Distinct(n, job.file) && Held(f, o, job, d.files)
    modifies d
    ensures d.clock > old(d.clock) && Grown(f, o, job, old(d.history), d.history)
    ensures d.files - Auxiliary(n) == old(d.files) - Auxiliary(n) && d.files.Keys <= old(d.files).Keys
    ensures ok <==> d.faults(old(d.clock) + 2).Fine?
  {
    hide PublicName, Distinct, Committable;
    DistinctNames(n, job.file);
    ghost var start := d.files;
    d.Remove(n.privateBackup);
    PairUntouched(start, d.files, n, job.file);
    d.Remove(n.publicBackup);
    PairUntouched(start, d.files, n, job.file);
    ok := d.Sync();
  }

  method Commit(d: Directory, ghost f: Formats, ghost o: Pair, job: Job, n: AuxNames, updated: Pair)
    returns (r: Result<(), Error>)
    requires Distinct(n, job.file) && Staged(d.files, n, updated)
    requires n.privateBackup in d.files && d.files[n.privateBackup] == o.private
    requires HasPair(d.files, job.file) && PairIn(d.files, job.file) == o
    requires Committable(f, o, job) && f.rewrite(o.private, job.passphrase, job.comment) == Some(updated)
    modifies d
    ensures d.clock > old(d.clock) && Grown(f, o, job, old(d.history), d.history)
    ensures d.files - Touched(n, job.file) == old(d.files) - Touched(n, job.file)
    ensures HasPair(d.files, job.file) && Outcome(r, o, updated, PairIn(d.files, job.file))
    ensures r == Verdict(d.faults, old(d.clock)) && (r.Err? ==> Late(r.error))
    ensures r.Err? && r.error.PublicFailed? ==> d.clock == old(d.clock) + 3
  {
    hide PublicName, Distinct, Readable, Verified, RenameVerdict;
    r := Replace(d, f, o, job, n, updated);
    if r.Ok? {
      ghost var replaced := d.files;
      var synced := Settle(d, f, o, job, n);
      PairUntouched(replaced, d.files, n, job.file);
      TouchedCovers(replaced, d.files, n, job.file);
      if !synced {
        return Err(SyncFailed);
      }
    }
  }

  lemma TouchedCovers(before: Files, after: Files, n: AuxNames, file: string)
    requires after - Auxiliary(n) == before - Auxiliary(n)
    ensures after - Touched(n, file) == before - Touched(n, file)
  {
    hide Auxiliary;
    assert after - Touched(n, file) == (after - Auxiliary(n)) - {file, PublicName(file)};
    assert before - Touched(n, file) == (before - Auxiliary(n)) - {file, PublicName(file)};
  }

  function Touched(n: AuxNames, file: string): set<string> {
    Auxiliary(n) + {file, PublicName(file)}
  }

  /** The pair each result leaves behind. */
  predicate Outcome<T>(r: Result<T, Error>, o: Pair, updated: Pair, p: Pair) {
    p == if r.Ok? || r.error.SyncFailed? then updated
         else if r.error == PublicFailed(false) then Pair(updated.private, o.public)
         else o
  }

  /** Removes the transaction's own files; one stays only if an operation failed. */
  method CleanUp(d: Directory, ghost f: Formats, ghost o: Pair, job: Job, n: AuxNames)
    requires Distinct(n, job.file) && Held(f, o, job, d.files)
    modifies d
    ensures d.clock == old(d.clock) + 4 && Grown(f, o, job, old(d.history), d.history)
    ensures d.files - Auxiliary(n) == old(d.files) - Auxiliary(n) && d.files.Keys <= old(d.files).Keys
    ensures FineBetween(d.faults, old(d.clock), d.clock) ==> Auxiliary(n) !! d.files.Keys
  {
    hide PublicName, Distinct, Committable;
    DistinctNames(n, job.file);
    ghost var start := d.files;
    var paths := [n.privateTemporary, n.publicTemporary, n.privateBackup, n.publicBackup];
    for i := 0 to |paths|
      invariant d.clock == old(d.clock) + i && Grown(f, o, job, old(d.history), d.history)
      invariant d.files - Auxiliary(n) == start - Auxiliary(n) && d.files.Keys <= start.Keys
      invariant Held(f, o, job, d.files)
      invariant FineBetween(d.faults, old(d.clock), d.clock) ==> forall j :: 0 <= j < i ==> paths[j] !in d.files
    {
      assert paths[i] in Auxiliary(n);
      d.Remove(paths[i]);
      PairUntouched(start, d.files, n, job.file);
    }
    assert paths[0] == n.privateTemporary && paths[1] == n.publicTemporary && paths[2] == n.privateBackup
           && paths[3] == n.publicBackup;
  }

  /** The staged files had been verified. */
  predicate PastVerify<T>(r: Result<T, Error>) {
    r.Ok? || !(r.error.StageFailed? || r.error.VerifyFailed?)
  }

  /** How the closure ends that begins at a tick: two writes, two reads that must find the staged pair right, two
      copies, and the renames. */
  ghost function TransactVerdict(f: Formats, o: Pair, job: Job, faults: nat -> Fault, start: nat): Result<(), Error>
    requires Readable(f, o, job.passphrase) && f.rewrite(o.private, job.passphrase, job.comment).Some?
  {
    if !FineBetween(faults, start, start + 2) then Err(StageFailed)
    else if !Committable(f, o, job) || !FineBetween(faults, start + 2, start + 4) then Err(VerifyFailed)
    else if !FineBetween(faults, start + 4, start + 6) then Err(BackupFailed)
    else Verdict(faults, start + 6)
  }

  /** From verified inputs to the end of the closure: stage, verify, back up, commit. */
  method Transact(d: Directory, f: Formats, o: Pair, job: Job, n: AuxNames, updated: Pair)
    returns (r: Result<(), Error>)
    requires Distinct(n, job.file) && Auxiliary(n) !! d.files.Keys
    requires HasPair(d.files, job.file) && PairIn(d.files, job.file) == o
    requires Readable(f, o, job.passphrase) && f.rewrite(o.private, job.passphrase, job.comment) == Some(updated)
    modifies d
    ensures d.clock >= old(d.clock) && Grown(f, o, job, old(d.history), d.history)
    ensures d.files - Touched(n, job.file) == old(d.files) - Touched(n, job.file)
    ensures HasPair(d.files, job.file) && Outcome(r, o, updated, PairIn(d.files, job.file))
    ensures PastVerify(r) ==> Committable(f, o, job)
    ensures r.Err? ==> Late(r.error)
    ensures r == TransactVerdict(f, o, job, d.faults, old(d.clock))
    ensures r.Err? && r.error.PublicFailed? ==> d.clock == old(d.clock) + 9
  {
    hide PublicName, Distinct, Readable, Verified, Auxiliary, Verdict;
    ghost var start := d.files;
    var staged := Stage(d, f, o, job, n, updated);
    PairUntouched(start, d.files, n, job.file);
    TouchedCovers(start, d.files, n, job.file);
    if !staged {
      return Err(StageFailed);
    }
    var verified := VerifyStaged(d, f, o, job, n, updated);
    if !verified {
      return Err(VerifyFailed);
    }
    ghost var middle := d.files;
    var backedUp := BackUp(d, f, o, job, n, updated);
    PairUntouched(middle, d.files, n, job.file);
    TouchedCovers(middle, d.files, n, job.file);
    if !backedUp {
      return Err(BackupFailed);
    }
    r := Commit(d, f, o, job, n, updated);
  }

  // ---- The whole change ------------------------------------------------------------

  /** What the result says about the pair that is left. */
  predicate Final(f: Formats, o: Pair, job: Job, r: Result<string, Error>, p: Pair) {
    if r.Ok? then
      && Readable(f, o, job.passphrase) && Opened(f, o.private, job.passphrase).value.comment == Some(r.value)
      && Readable(f, p, job.passphrase)
      && Opened(f, p.private, job.passphrase).value.comment == Some(job.comment)
      && f.public(p.public).value.comment == Some(job.comment)
      && (p == o || (Committable(f, o, job) && p == NewPair(f, o, job)))
    else if r.error.SyncFailed? then Committable(f, o, job) && p == NewPair(f, o, job)
    else if r.error == PublicFailed(false) then
      Committable(f, o, job) && p == Pair(NewPair(f, o, job).private, o.public)
    else p == o
  }

  function NewPair(f: Formats, o: Pair, job: Job): Pair
    requires Committable(f, o, job)
  {
    f.rewrite(o.private, job.passphrase, job.comment).value
  }

  /** All files but the pair are as they were; new names are the transaction's own. */
  ghost predicate OthersKept(before: Files, after: Files, job: Job) {
    && (forall x :: x in before && x != job.file && x != PublicName(job.file) ==> x in after && after[x] == before[x])
    && (forall x :: x in after && x !in before ==>
          exists role, extension, target :: FromTarget(x, target, role, job.pid, extension)
              && (target == job.file || target == PublicName(job.file)))
  }

  lemma OnlyTouched(before: Files, after: Files, n: AuxNames, job: Job)
    requires AuxOf(n, job.file, job.pid) && Auxiliary(n) !! before.Keys && HasPair(before, job.file)
    requires after - Touched(n, job.file) == before - Touched(n, job.file)
    ensures OthersKept(before, after, job)
  {
    hide FromTarget;
    forall x | x in before && x != job.file && x != PublicName(job.file) ensures x in after && after[x] == before[x] {
      assert x !in Touched(n, job.file);
      assert x in before - Touched(n, job.file);
      assert x in after - Touched(n, job.file);
    }
    forall x | x in after && x !in before
      ensures exists role, extension, target ::
          FromTarget(x, target, role, job.pid, extension) && (target == job.file || target == PublicName(job.file))
    {
      assert x in after - Touched(n, job.file) <==> x in before - Touched(n, job.file);
      assert x in Touched(n, job.file);
    }
  }

  lemma KeysBack(before: Files, after: Files, n: AuxNames, file: string)
    requires after - Touched(n, file) == before - Touched(n, file) && HasPair(before, file) && HasPair(after, file)
    requires Auxiliary(n) !! before.Keys && Auxiliary(n) !! after.Keys
    ensures after.Keys == before.Keys
  {
    hide Auxiliary, PublicName;
    forall x ensures x in after <==> x in before {
      assert x in after - Touched(n, file) <==> x in before - Touched(n, file);
    }
  }

  /** The first rename of a change is its ninth operation: two reads, two writes, two reads and two copies precede
      it. */
  const COMMIT_TICK := 8

  /** A change of the files, begun at a tick, gets as far as its renames. */
  ghost predicate Reached(f: Formats, files: Files, job: Job, faults: nat -> Fault, start: nat) {
    && ValidComment(job.comment, job.bytes) && HasPair(files, job.file)
    && Committable(f, PairIn(files, job.file), job) && !Already(f, PairIn(files, job.file), job)
    && !NamesTaken(files, job) && FineBetween(faults, start, start + COMMIT_TICK)
  }

  /** How a change of readable files ends that begins at a tick. */
  ghost function Decision(f: Formats, files: Files, job: Job, faults: nat -> Fault, start: nat): Result<(), Error>
    requires Prepared(f, job, files)
  {
    var o := PairIn(files, job.file);
    if Already(f, o, job) then Ok(())
    else if NamesTaken(files, job) then Err(NoName)
    else TransactVerdict(f, o, job, faults, start + 2)
  }

  /** The result is decided by the files and by the operations that fail, before any of them is written to. */
  ghost predicate Decided(f: Formats, files: Files, job: Job, faults: nat -> Fault, start: nat,
                          r: Result<string, Error>)
  {
    if Prepared(f, job, files) && FineBetween(faults, start, start + 2) then
      var decision := Decision(f, files, job, faults, start);
      (r.Ok? <==> decision.Ok?) && (r.Err? ==> r.error == decision.error)
    else r.Err? && Early(r.error)
  }

  /** Before the renames a change leaves nothing that its verdict could speak of. */
  lemma ReachedDecides(f: Formats, files: Files, job: Job, faults: nat -> Fault, start: nat, r: Result<string, Error>)
    requires HasPair(files, job.file) && Decided(f, files, job, faults, start, r)
    ensures Reached(f, files, job, faults, start) ==>
              var verdict := Verdict(faults, start + COMMIT_TICK);
              (r.Ok? <==> verdict.Ok?) && (r.Err? ==> r.error == verdict.error)
    ensures !Reached(f, files, job, faults, start) ==>
              if r.Ok? then
                Readable(f, PairIn(files, job.file), job.passphrase) && Already(f, PairIn(files, job.file), job)
              else !r.error.CommitFailed? && !r.error.PublicFailed? && !r.error.SyncFailed?
  {
    hide NamesTaken, Readable, Verified, ValidComment, Already, Verdict;
  }

  /** A change is refused for want of a name exactly when it was readable, had something to do, and all hundred
      candidates for one of its four files exist. */
  lemma NoNameExact(f: Formats, files: Files, job: Job, faults: nat -> Fault, start: nat, r: Result<string, Error>)
    requires Decided(f, files, job, faults, start, r)
    ensures r == Err(NoName) <==>
            && Prepared(f, job, files) && !Already(f, PairIn(files, job.file), job)
            && FineBetween(faults, start, start + 2) && NamesTaken(files, job)
  {
    hide NamesTaken, Readable, Verified, Already, FineBetween;
  }

  /** The private file was moved, the public one was not, and the private one could not be put back. */
  predicate RollbackFails(faults: nat -> Fault, start: nat) {
    faults(start).Fine? && faults(start + 1).Fails? && faults(start + 2).Fails?
  }

  /** Both files were moved, and the directory could not be synced. */
  predicate OnlySyncFails(faults: nat -> Fault, start: nat) {
    faults(start).Fine? && faults(start + 1).Fine? && faults(start + 4).Fails?
  }

  /** The new private file stays beside the old public one exactly when the public rename failed and the rename that
      puts the private file back failed too; both files are new in spite of an error exactly when only the directory
      sync failed. */
  lemma MixedMeansRollbackFailed(f: Formats, files: Files, job: Job, faults: nat -> Fault, start: nat,
                                 r: Result<string, Error>, p: Pair)
    requires HasPair(files, job.file) && Decided(f, files, job, faults, start, r)
    requires var o := PairIn(files, job.file);
             && Committable(f, o, job) && Final(f, o, job, r, p)
             && NewPair(f, o, job).private != o.private && NewPair(f, o, job).public != o.public
    ensures var o := PairIn(files, job.file);
            && (p == Pair(NewPair(f, o, job).private, o.public) <==>
                  Reached(f, files, job, faults, start) && RollbackFails(faults, start + COMMIT_TICK))
            && (r.Err? && p == NewPair(f, o, job) <==>
                  Reached(f, files, job, faults, start) && OnlySyncFails(faults, start + COMMIT_TICK))
            && (p.private == o.private ==> p.public == o.public)
  {
    hide Readable, Verified, ValidComment, FineBetween, Already, Reached, Decided;
    ReachedDecides(f, files, job, faults, start, r);
  }

  lemma EarlyFinal(f: Formats, o: Pair, job: Job, oldComment: string)
    requires Readable(f, o, job.passphrase) && Opened(f, o.private, job.passphrase).value.comment == Some(oldComment)
    requires oldComment == job.comment && f.public(o.public).value.comment == Some(job.comment)
    ensures Final(f, o, job, Ok(oldComment), o)
  {
  }

  lemma FinalOutcome(f: Formats, o: Pair, job: Job, oldComment: string, result: Result<(), Error>, p: Pair)
    requires Readable(f, o, job.passphrase) && f.rewrite(o.private, job.passphrase, job.comment).Some?
    requires Opened(f, o.private, job.passphrase).value.comment == Some(oldComment)
    requires Outcome(result, o, f.rewrite(o.private, job.passphrase, job.comment).value, p)
    requires PastVerify(result) ==> Committable(f, o, job)
    requires result.Err? ==> Late(result.error)
    ensures Final(f, o, job, if result.Ok? then Ok(oldComment) else Err(result.error), p)
  {
  }

  lemma HeldAfter(f: Formats, o: Pair, job: Job, result: Result<(), Error>, files: Files)
    requires HasPair(files, job.file) && f.rewrite(o.private, job.passphrase, job.comment).Some?
    requires Outcome(result, o, f.rewrite(o.private, job.passphrase, job.comment).value, PairIn(files, job.file))
    requires PastVerify(result) ==> Committable(f, o, job)
    ensures Held(f, o, job, files)
  {
  }

  /** The cleanup is the last four operations of a change: when none of them fails, nothing of it stays, backups
      included, whatever happened before. */
  function LastFour(clock: nat): nat {
    if clock < 4 then 0 else clock - 4
  }

  /** The transaction, for any formats and any pattern of failing operations. */
  method ChangeKeyComment(d: Directory, f: Formats, job: Job) returns (r: Result<string, Error>)
    modifies d
    ensures !HasPair(old(d.files), job.file) ==> r.Err? && d.files == old(d.files) && d.history == old(d.history)
    ensures HasPair(old(d.files), job.file) ==>
              var o := PairIn(old(d.files), job.file);
              && Grown(f, o, job, old(d.history), d.history)
              && HasPair(d.files, job.file) && Final(f, o, job, r, PairIn(d.files, job.file))
    ensures OthersKept(old(d.files), d.files, job)
    ensures Decided(f, old(d.files), job, d.faults, old(d.clock), r)
    ensures r.Err? ==> Cause(f, job, old(d.files), d.faults, old(d.clock), r.error)
    ensures r == Err(InvalidComment) <==>
              job.bytes > 1023 || exists c :: c in job.comment && (c as int < 32 || 127 <= c as int <= 159)
    ensures FineBetween(d.faults, LastFour(d.clock), d.clock) ==> d.files.Keys == old(d.files).Keys
    ensures r.Err? && r.error.PublicFailed? ==> d.clock == old(d.clock) + COMMIT_TICK + 7
  {
    hide PublicName, Distinct, Readable, Verified, Auxiliary, Touched, FromTarget, TransactVerdict, NamesTaken, Cause;
    CommentRefused(job.comment, job.bytes);
    var prepared := Prepare(d, f, job);
    if prepared.Err? {
      return Err(prepared.error);
    }
    var oldComment, o := prepared.value.0, prepared.value.1;
    if prepared.value.2.None? {
      EarlyFinal(f, o, job, oldComment);
      return Ok(oldComment);
    }
    var names := Allocate(d, job);
    if names.None? {
      NoEarlyCause(NoName);
      return Err(NoName);
    }
    var n, updated := names.value, prepared.value.2.value;
    ghost var start := d.files;
    AuxDistinct(n, job.file, job.pid);
    var result := Transact(d, f, o, job, n, updated);
    ghost var ended := d.files;
    HeldAfter(f, o, job, result, d.files);
    FinalOutcome(f, o, job, oldComment, result, PairIn(d.files, job.file));
    CleanUp(d, f, o, job, n);
    PairUntouched(ended, d.files, n, job.file);
    TouchedCovers(ended, d.files, n, job.file);
    OnlyTouched(start, d.files, n, job);
    if FineBetween(d.faults, LastFour(d.clock), d.clock) {
      KeysBack(start, d.files, n, job.file);
    }
    if result.Err? {
      NoEarlyCause(result.error);
      return Err(result.error);
    }
    return Ok(oldComment);
  }

  lemma NoEarlyCause(e: Error)
    requires !Early(e)
    ensures forall f, job, files, faults, start :: Cause(f, job, files, faults, start, e)
  {
  }

  // ---- A run that leaves a mixed pair ------------------------------------------------

  /** Formats in which a file is its comment: one byte says "new", none says "old". */
  function SampleFormats(): Formats {
    Formats(
      (file: Bytes) => Some(false),
      (file: Bytes) => Key(1, 2, Some(if file == [] then "old" else "new")),
      (file: Bytes, passphrase: string) => None,
      (file: Bytes) => Some(PublicKey(2, Some(if file == [] then "old" else "new"))),
      (file: Bytes, passphrase: string, comment: string) => Some(Pair([1], [1])))
  }

  /** Only the second rename and the one that puts the private file back fail. */
  function SecondRenameFails(k: nat): Fault {
    if k == 9 || k == 10 then Fails(None) else Fine
  }

  /** The new private file is left beside the old public one, and no copy of the old private file is left anywhere. */
  method MixedPairExample() returns (r: Result<string, Error>, files: Files)
    ensures r == Err(PublicFailed(false))
    ensures files == map["key" := [1], "key.pub" := []]
  {
    hide *;
    var d := new Directory(SampleFiles(), SecondRenameFails);
    SampleReaches();
    r := ChangeKeyComment(d, SampleFormats(), SampleJob());
    files := d.files;
    ReachedDecides(SampleFormats(), SampleFiles(), SampleJob(), SecondRenameFails, 0, r);
    SampleEnds(r, files);
  }

  function SampleFiles(): Files {
    map["key" := [], "key.pub" := []]
  }

  function SampleJob(): Job {
    Job("key", "", "new", 3, 7)
  }

  lemma SampleEnds(r: Result<string, Error>, files: Files)
    requires r == Err(PublicFailed(false)) && HasPair(files, "key") && files.Keys == SampleFiles().Keys
    requires Final(SampleFormats(), PairIn(SampleFiles(), "key"), SampleJob(), r, PairIn(files, "key"))
    ensures files == map["key" := [1], "key.pub" := []]
  {
    assert PublicName("key") == "key.pub";
  }

  lemma SampleReaches()
    ensures HasPair(SampleFiles(), "key") && SampleJob().file == "key"
    ensures Reached(SampleFormats(), SampleFiles(), SampleJob(), SecondRenameFails, 0)
    ensures Verdict(SecondRenameFails, COMMIT_TICK) == Err(PublicFailed(false))
    ensures FineBetween(SecondRenameFails, LastFour(COMMIT_TICK + 7), COMMIT_TICK + 7)
  {
    assert PublicName("key") == "key.pub";
    NamesFree(SampleFiles(), SampleJob());
    hide NamesTaken;
  }
}
