/** Changing the passphrase of a private key through a verified temporary file. */
module KeyPassphrase {
  import opened Basics
  import opened KeyFiles
  import opened KeyComment

  datatype PassphraseError = Unreadable | WrongOld | NotEncoded | NoTemporary | Rejected

  /** Re-encodes the key in a file opened with the first passphrase under the second one; it may produce anything. */
  type Rekey = (Bytes, string, string) -> Option<Bytes>

  /** The old passphrase opens the file; a plain file takes none. */
  predicate OpensWith(f: Formats, file: Bytes, passphrase: string) {
    Opened(f, file, passphrase).Some? && (f.encrypted(file) == Some(false) ==> passphrase == "")
  }

  /** A sealed file opens with the passphrase that unlocks it, a plain one with none only, and other text not at all. */
  lemma OpensExactly(f: Formats, file: Bytes, passphrase: string)
    ensures OpensWith(f, file, passphrase) <==>
            || (f.encrypted(file) == Some(true) && f.unlock(file, passphrase).Some?)
            || (f.encrypted(file) == Some(false) && passphrase == "")
  {
  }

  /** The new text holds the same key with the same comment, and the new passphrase opens it if it is encrypted. */
  predicate SameKey(f: Formats, o: Bytes, oldPassphrase: string, n: Bytes, newPassphrase: string)
    requires OpensWith(f, o, oldPassphrase)
  {
    Opened(f, n, newPassphrase) == Opened(f, o, oldPassphrase)
  }

  datatype Change = Change(file: string, oldPassphrase: string, newPassphrase: string, pid: nat)

  predicate Accepted(f: Formats, rekey: Rekey, o: Bytes, c: Change) {
    && OpensWith(f, o, c.oldPassphrase)
    && rekey(o, c.oldPassphrase, c.newPassphrase).Some?
    && SameKey(f, o, c.oldPassphrase, rekey(o, c.oldPassphrase, c.newPassphrase).value, c.newPassphrase)
  }

  /** The key file holds the old text, or the new one once it was accepted. */
  predicate Holds(f: Formats, rekey: Rekey, o: Bytes, c: Change, files: Files) {
    && c.file in files
    && (files[c.file] == o
        || (Accepted(f, rekey, o, c) && files[c.file] == rekey(o, c.oldPassphrase, c.newPassphrase).value))
  }

  ghost predicate Grew(f: Formats, rekey: Rekey, o: Bytes, c: Change, before: seq<Files>, after: seq<Files>) {
    before <= after && forall i :: |before| <= i < |after| ==> Holds(f, rekey, o, c, after[i])
  }

  /** Reads the temporary file back and compares keys. */
  method Verify(d: Directory, f: Formats, o: Bytes, c: Change, temporary: string, encoded: Bytes) returns (ok: bool)
    requires temporary in d.files && d.files[temporary] == encoded && OpensWith(f, o, c.oldPassphrase)
    modifies d`clock
    ensures d.clock == old(d.clock) + 1
    ensures ok <==> SameKey(f, o, c.oldPassphrase, encoded, c.newPassphrase) && d.faults(old(d.clock)).Fine?
  {
    var original := Opened(f, o, c.oldPassphrase).value;
    var written := d.Read(temporary);
    if written.None? {
      return false;
    }
    var encrypted := f.encrypted(written.value);
    if encrypted.None? {
      return false;
    }
    var key := if encrypted.value then f.unlock(written.value, c.newPassphrase) else Some(f.plain(written.value));
    return key.Some? && key.value.fingerprint == original.fingerprint
      && key.value.keyData == original.keyData && key.value.comment == original.comment;
  }

  /** Creates, verifies and moves the temporary file. */
  method WriteAndReplace(d: Directory, f: Formats, ghost rekey: Rekey, o: Bytes, c: Change, temporary: string,
                         encoded: Bytes)
    returns (ok: bool)
    requires temporary !in d.files && temporary != c.file && c.file in d.files && d.files[c.file] == o
    requires OpensWith(f, o, c.oldPassphrase) && rekey(o, c.oldPassphrase, c.newPassphrase) == Some(encoded)
    modifies d
    ensures d.clock > old(d.clock) && Grew(f, rekey, o, c, old(d.history), d.history)
    ensures d.files - {temporary, c.file} == old(d.files) - {temporary, c.file} && c.file in d.files
    ensures ok ==> Accepted(f, rekey, o, c) && d.files[c.file] == encoded && temporary !in d.files
    ensures !ok ==> d.files[c.file] == o
    ensures ok <==> Accepted(f, rekey, o, c) && FineBetween(d.faults, old(d.clock), old(d.clock) + 3)
  {
    hide SameKey, OpensWith, Accepted;
    AcceptedIs(f, rekey, o, c, encoded);
    ok := d.CreateNew(temporary, encoded);
    if !ok {
      return false;
    }
    ok := Verify(d, f, o, c, temporary, encoded);
    if !ok {
      return false;
    }
    ok := d.Rename(temporary, c.file);
    if !ok {
      return false;
    }
    var _ := d.Sync();
  }

  lemma AcceptedIs(f: Formats, rekey: Rekey, o: Bytes, c: Change, encoded: Bytes)
    requires OpensWith(f, o, c.oldPassphrase) && rekey(o, c.oldPassphrase, c.newPassphrase) == Some(encoded)
    ensures Accepted(f, rekey, o, c) <==> SameKey(f, o, c.oldPassphrase, encoded, c.newPassphrase)
  {
  }

  lemma TemporaryDistinct(temporary: string, file: string, pid: nat, attempt: nat)
    requires temporary == PassphraseAuxName(file, pid, attempt)
    ensures temporary != file
  {
    assert |temporary| > |file|;
  }

  /** The old passphrase opens the file, and its key can be encoded under the new one. */
  predicate Ready(f: Formats, rekey: Rekey, files: Files, c: Change) {
    c.file in files && OpensWith(f, files[c.file], c.oldPassphrase)
    && rekey(files[c.file], c.oldPassphrase, c.newPassphrase).Some?
  }

  /** The result is decided by the file and by the operations that fail: one read, then a write, a read that must find
      the same key, and the rename. Whether the directory can be synced does not matter. */
  ghost predicate Settled(f: Formats, rekey: Rekey, files: Files, c: Change, faults: nat -> Fault, start: nat,
                          r: Result<(), PassphraseError>)
  {
    var taken := PassphraseNamesTaken(files, c.file, c.pid);
    && (r.Ok? <==>
          && Ready(f, rekey, files, c) && Accepted(f, rekey, files[c.file], c) && !taken
          && FineBetween(faults, start, start + 4))
    && (r == Err(NoTemporary) <==> Ready(f, rekey, files, c) && faults(start).Fine? && taken)
    && (r == Err(Rejected) <==>
          && Ready(f, rekey, files, c) && faults(start).Fine? && !taken
          && !(Accepted(f, rekey, files[c.file], c) && FineBetween(faults, start + 1, start + 4)))
  }

  /** The whole change, for any formats and any pattern of failing operations. */
  method ChangePassphrase(d: Directory, f: Formats, rekey: Rekey, c: Change) returns (r: Result<(), PassphraseError>)
    modifies d
    ensures c.file !in old(d.files) ==> r.Err? && d.files == old(d.files) && d.history == old(d.history)
    ensures c.file in old(d.files) ==>
              var o := old(d.files)[c.file];
              && Grew(f, rekey, o, c, old(d.history), d.history) && c.file in d.files
              && (r.Ok? ==>
                  Accepted(f, rekey, o, c) && d.files[c.file] == rekey(o, c.oldPassphrase, c.newPassphrase).value)
              && (r.Err? ==> d.files[c.file] == o)
    ensures Settled(f, rekey, old(d.files), c, d.faults, old(d.clock), r)
    ensures forall x :: x in old(d.files) && x != c.file ==> x in d.files && d.files[x] == old(d.files)[x]
    ensures r.Ok? || FineBetween(d.faults, old(d.clock), d.clock) ==> d.files.Keys == old(d.files).Keys
  {
    hide SameKey, PassphraseAuxName, PassphraseNamesTaken;
    var read := d.Read(c.file);
    if read.None? {
      return Err(Unreadable);
    }
    var o := read.value;
    var encrypted := f.encrypted(o);
    if encrypted.None? {
      return Err(Unreadable);
    }
    if encrypted.value && f.unlock(o, c.oldPassphrase).None? {
      return Err(WrongOld);
    }
    if !encrypted.value && c.oldPassphrase != "" {
      return Err(WrongOld);
    }
    var encoded := rekey(o, c.oldPassphrase, c.newPassphrase);
    if encoded.None? {
      return Err(NotEncoded);
    }
    var temporary := CreatePassphraseAuxName(d, c.file, c.pid);
    if temporary.None? {
      return Err(NoTemporary);
    }
    ghost var attempt: nat :| temporary.value == PassphraseAuxName(c.file, c.pid, attempt);
    TemporaryDistinct(temporary.value, c.file, c.pid, attempt);
    ghost var start := d.files;
    var ok := WriteAndReplace(d, f, rekey, o, c, temporary.value, encoded.value);
    SameElsewhere(start, d.files, {temporary.value, c.file});
    if !ok {
      d.Remove(temporary.value);
      SameElsewhere(start, d.files, {temporary.value, c.file});
      return Err(Rejected);
    }
    return Ok(());
  }

  lemma SameElsewhere(before: Files, after: Files, touched: set<string>)
    requires after - touched == before - touched
    ensures forall x :: x !in touched ==> (x in after <==> x in before) && (x in before ==> after[x] == before[x])
  {
    forall x | x !in touched ensures (x in after <==> x in before) && (x in before ==> after[x] == before[x]) {
      assert x in after <==> x in after - touched;
      assert x in before <==> x in before - touched;
      assert x in before ==> after[x] == (after - touched)[x] == (before - touched)[x];
    }
  }
}
