/** The directory a key pair lives in, with operations that may fail, and the names of transaction files. */
module KeyFiles {
  import opened Basics
  import opened Decimals

  type Bytes = seq<byte>

  type Files = map<string, Bytes>

  /** How one operation goes. A failing write or copy may leave any bytes behind. */
  datatype Fault = Fine | Fails(partial: Option<Bytes>)

  /** Every operation takes one tick, appends the directory's new content to `history`, and fails when told to. */
  class Directory {
    var files: Files
    var clock: nat
    var history: seq<Files>
    const faults: nat -> Fault

    constructor (content: Files, faults: nat -> Fault)
      ensures files == content && clock == 0 && history == [] && this.faults == faults
    {
      files, clock, history := content, 0, [];
      this.faults := faults;
    }

    method Tick() returns (fault: Fault)
      modifies this`clock
      ensures clock == old(clock) + 1 && fault == faults(old(clock))
    {
      fault := faults(clock);
      clock := clock + 1;
    }

    method Read(name: string) returns (r: Option<Bytes>)
      modifies this`clock
      ensures clock == old(clock) + 1
      ensures r.Some? <==> faults(old(clock)).Fine? && name in files
      ensures r.Some? ==> r.value == files[name]
    {
      var fault := Tick();
      if fault.Fails? || name !in files {
        return None;
      }
      return Some(files[name]);
    }

    /** Creates a new file and writes it durably. It fails on an existing name; a failed write leaves a partial file. */
    method CreateNew(name: string, content: Bytes) returns (ok: bool)
      modifies this
      ensures clock == old(clock) + 1 && history == old(history) + [files]
      ensures ok <==> faults(old(clock)).Fine? && name !in old(files)
      ensures ok ==> files == old(files)[name := content]
      ensures !ok ==> files == old(files) || (name !in old(files) && files - {name} == old(files))
    {
      var fault := Tick();
      ok := fault.Fine? && name !in files;
      if ok {
        files := files[name := content];
      } else if name !in files && fault.partial.Some? {
        files := files[name := fault.partial.value];
      }
      history := history + [files];
    }

    /** Copies over whatever is there. */
    method Copy(source: string, target: string) returns (ok: bool)
      modifies this
      ensures clock == old(clock) + 1 && history == old(history) + [files]
      ensures ok <==> faults(old(clock)).Fine? && source in old(files)
      ensures ok ==> files == old(files)[target := old(files)[source]]
      ensures !ok ==> files - {target} == old(files) - {target}
    {
      var fault := Tick();
      ok := fault.Fine? && source in files;
      if ok {
        files := files[target := files[source]];
      } else if fault.Fails? && fault.partial.Some? {
        files := files[target := fault.partial.value];
      }
      history := history + [files];
    }

    /** Atomically moves a file over another. */
    method Rename(source: string, target: string) returns (ok: bool)
      modifies this
      ensures clock == old(clock) + 1 && history == old(history) + [files]
      ensures ok <==> faults(old(clock)).Fine? && source in old(files)
      ensures ok ==> files == (old(files) - {source})[target := old(files)[source]]
      ensures !ok ==> files == old(files)
    {
      var fault := Tick();
      ok := fault.Fine? && source in files;
      if ok {
        files := (files - {source})[target := files[source]];
      }
      history := history + [files];
    }

    method Remove(name: string)
      modifies this
      ensures clock == old(clock) + 1 && history == old(history) + [files]
      ensures faults(old(clock)).Fine? ==> files == old(files) - {name}
      ensures !faults(old(clock)).Fine? ==> files == old(files)
    {
      var fault := Tick();
      if fault.Fine? {
        files := files - {name};
      }
      history := history + [files];
    }

    /** Makes renames durable; it changes no content. */
    method Sync() returns (ok: bool)
      modifies this`clock
      ensures clock == old(clock) + 1 && (ok <==> faults(old(clock)).Fine?)
    {
      var fault := Tick();
      ok := fault.Fine?;
    }
  }

  /** No operation between two ticks failed. */
  ghost predicate FineBetween(faults: nat -> Fault, from: nat, to: nat) {
    forall k :: from <= k < to ==> faults(k).Fine?
  }

  // ---- Names of transaction files ---------------------------------------------

  const ATTEMPTS := 100

  function PublicName(file: string): string {
    file + ".pub"
  }

  function CommentAuxName(target: string, role: string, pid: nat, attempt: nat, extension: string): string {
    "." + target + (".ltty-comment-" + role + "-" + Decimal(pid) + "-" + Decimal(attempt) + "." + extension)
  }

  function PassphraseAuxName(target: string, pid: nat, attempt: nat): string {
    "." + target + (".ltty-passphrase-" + Decimal(pid) + "-" + Decimal(attempt) + ".tmp")
  }

  /** The first candidates of process 7 for a key named `k`. */
  lemma NameExamples()
    ensures PublicName("k") == "k.pub"
    ensures CommentAuxName("k", "private", 7, 0, "tmp")
            == "." + "k" + (".ltty-comment-" + "private" + "-" + "7" + "-" + "0" + "." + "tmp")
    ensures PassphraseAuxName("k", 7, 0) == "." + "k" + (".ltty-passphrase-" + "7" + "-" + "0" + ".tmp")
  {
    assert Decimal(7) == "7" && Decimal(0) == "0";
    hide Decimal;
  }

  /** Every candidate for a transaction file exists already. */
  predicate CommentNamesTaken(files: Files, target: string, role: string, pid: nat, extension: string) {
    forall a :: 0 <= a < ATTEMPTS ==> CommentAuxName(target, role, pid, a, extension) in files
  }

  predicate PassphraseNamesTaken(files: Files, target: string, pid: nat) {
    forall a :: 0 <= a < ATTEMPTS ==> PassphraseAuxName(target, pid, a) in files
  }

  /** The first unused candidate name. */
  method CreateCommentAuxName(d: Directory, target: string, role: string, pid: nat, extension: string)
    returns (r: Option<string>)
    ensures r.None? <==> CommentNamesTaken(d.files, target, role, pid, extension)
    ensures r.Some? ==>
              && r.value !in d.files
              && exists a :: 0 <= a < ATTEMPTS && r.value == CommentAuxName(target, role, pid, a, extension)
                             && forall b :: 0 <= b < a ==> CommentAuxName(target, role, pid, b, extension) in d.files
  {
    hide CommentAuxName;
    for attempt := 0 to ATTEMPTS
      invariant forall a :: 0 <= a < attempt ==> CommentAuxName(target, role, pid, a, extension) in d.files
    {
      var candidate := CommentAuxName(target, role, pid, attempt, extension);
      if candidate !in d.files {
        return Some(candidate);
      }
    }
    return None;
  }

  method CreatePassphraseAuxName(d: Directory, target: string, pid: nat) returns (r: Option<string>)
    ensures r.None? <==> PassphraseNamesTaken(d.files, target, pid)
    ensures r.Some? ==>
              && r.value !in d.files
              && exists a :: 0 <= a < ATTEMPTS && r.value == PassphraseAuxName(target, pid, a)
                             && forall b :: 0 <= b < a ==> PassphraseAuxName(target, pid, b) in d.files
  {
    hide PassphraseAuxName;
    for attempt := 0 to ATTEMPTS
      invariant forall a :: 0 <= a < attempt ==> PassphraseAuxName(target, pid, a) in d.files
    {
      var candidate := PassphraseAuxName(target, pid, attempt);
      if candidate !in d.files {
        return Some(candidate);
      }
    }
    return None;
  }

  datatype AuxNames =
      AuxNames(privateTemporary: string, publicTemporary: string, privateBackup: string, publicBackup: string)

  ghost predicate FromTarget(name: string, target: string, role: string, pid: nat, extension: string) {
    exists a: nat :: name == CommentAuxName(target, role, pid, a, extension)
  }

  ghost predicate AuxOf(n: AuxNames, file: string, pid: nat) {
    && FromTarget(n.privateTemporary, file, "private", pid, "tmp")
    && FromTarget(n.publicTemporary, PublicName(file), "public", pid, "tmp")
    && FromTarget(n.privateBackup, file, "private", pid, "bak")
    && FromTarget(n.publicBackup, PublicName(file), "public", pid, "bak")
  }

  lemma AuxShape(name: string, target: string, role: string, pid: nat, extension: string)
    requires FromTarget(name, target, role, pid, extension) && |extension| == 3
    ensures |name| > |target| + 18
    ensures name[1..1 + |target|] == target && name[1 + |target|..1 + |target| + 2] == ".l"
    ensures name[|name| - 3..] == extension
  {
    var a: nat :| name == CommentAuxName(target, role, pid, a, extension);
    var front := "." + target;
    var middle := ".ltty-comment-" + role + "-" + Decimal(pid) + "-" + Decimal(a) + ".";
    hide Decimal;
    assert name == front + (middle + extension);
    assert (middle + extension)[..2] == ".l";
  }

  predicate Distinct(n: AuxNames, file: string) {
    var all := [file, PublicName(file), n.privateTemporary, n.publicTemporary, n.privateBackup, n.publicBackup];
    forall i, j :: 0 <= i < j < |all| ==> all[i] != all[j]
  }

  /** The six names of a transaction are distinct, whatever the key is called. */
  lemma AuxDistinct(n: AuxNames, file: string, pid: nat)
    requires AuxOf(n, file, pid)
    ensures Distinct(n, file)
  {
    hide FromTarget;
    AuxShape(n.privateTemporary, file, "private", pid, "tmp");
    AuxShape(n.publicTemporary, PublicName(file), "public", pid, "tmp");
    AuxShape(n.privateBackup, file, "private", pid, "bak");
    AuxShape(n.publicBackup, PublicName(file), "public", pid, "bak");
    assert n.publicTemporary[1..1 + |file| + 4] == file + ".pub";
    assert n.publicTemporary[1 + |file| + 1] == PublicName(file)[|file| + 1] == 'p';
    assert n.publicBackup[1 + |file| + 1] == PublicName(file)[|file| + 1] == 'p';
    assert n.privateTemporary[1 + |file|..1 + |file| + 2][1] == 'l';
    assert n.privateBackup[1 + |file|..1 + |file| + 2][1] == 'l';
  }
}
