/**
 What files hold over whole sessions: bytes that were written are read back
 until a write over them or a removal.
 */
module FsContents {
  import opened Machine
  import opened FsTree
  import opened PathModel
  import opened SkullFs
  import opened Words
  import opened PathWalk
  import opened FsCommands
  import opened FsRuns
  import opened FsLeaks

  /** File `q` has the bytes `data` at `offset`. */
  predicate HasBytes(t: Tree, q: Path, offset: nat, data: seq<byte>) {
    && q in t && t[q].File? && offset + |data| <= |t[q].bytes|
    && t[q].bytes[offset..offset + |data|] == data
  }

  /** What a command is to write: the file, from where on, and the bytes. */
  datatype Piece = Piece(file: Path, offset: nat, data: seq<byte>)

  function PieceOf(t: Tree, c: Command): Option<Piece> {
    match c
    case WriteFile(path, words) =>
      if Opened(t, path).Some? then Some(Piece(Opened(t, path).value.1, 0, ToBytes(Joined(words)))) else None
    case WriteBytes(path, offset, data) =>
      if Resolved(t, path).Some? && data != [] then Some(Piece(Resolved(t, path).value, offset, data)) else None
    case _ => None
  }

  predicate Overlap(a: nat, m: nat, b: nat, n: nat) {
    m > 0 && n > 0 && a < b + n && b < a + m
  }

  /** The command may change `n` bytes at `offset` of file `q`: it writes there, or removes the file or a directory
      above it. */
  predicate Disturbs(t: Tree, c: Command, q: Path, offset: nat, n: nat) {
    || (RemovedNode(t, c).Some? && Under(RemovedNode(t, c).value, q))
    || (PieceOf(t, c).Some? && PieceOf(t, c).value.file == q
        && Overlap(PieceOf(t, c).value.offset, |PieceOf(t, c).value.data|, offset, n))
  }

  // ---- One command --------------------------------------------------------------

  lemma WrittenHolds(t: Tree, q: Path, offset: nat, data: seq<byte>, after: Tree)
    requires WroteTo(t, q, offset, data, after)
    ensures HasBytes(after, q, offset, data)
  {
  }

  /** A write elsewhere, in another file or in other bytes of this one, leaves bytes as they are. */
  lemma WrittenElsewhere(t: Tree, p: Path, at: nat, more: seq<byte>, after: Tree, q: Path, offset: nat, data: seq<byte>)
    requires WroteTo(t, p, at, more, after) && HasBytes(t, q, offset, data)
    requires p == q ==> !Overlap(at, |more|, offset, |data|)
    ensures HasBytes(after, q, offset, data)
  {
    if p == q {
      var (was, now) := (t[q].bytes, after[q].bytes);
      forall i | offset <= i < offset + |data| ensures now[i] == was[i] {
      }
      assert now[offset..offset + |data|] == was[offset..offset + |data|];
    }
  }

  lemma LinkedElsewhere(t: Tree, p: Path, x: string, content: Content, q: Path, offset: nat, data: seq<byte>)
    requires IsDir(t, p) && In(p, x) !in t && HasBytes(t, q, offset, data)
    ensures HasBytes(Link(t, p, x, content), q, offset, data)
  {
  }

  lemma PrunedElsewhere(t: Tree, p: Path, x: string, q: Path, offset: nat, data: seq<byte>)
    requires IsDir(t, p) && x in t[p].names && HasBytes(t, q, offset, data) && !Under(In(p, x), q)
    ensures HasBytes(Prune(t, p, x), q, offset, data)
  {
  }

  lemma WroteIsTree(s: Snapshot, q: Path, offset: nat, data: seq<byte>, ok: bool, after: Snapshot)
    requires WritesTo(s, q, offset, data, ok, after)
    ensures if ok then WroteTo(s.v.tree, q, offset, data, after.v.tree) else after.v.tree == s.v.tree
  {
  }

  /** A command that writes leaves its bytes in its file. */
  lemma WriteHolds(s: Snapshot, c: Command, o: Outcome, after: Snapshot)
    requires Effect(s, c, o, after) && o.ok && PieceOf(s.v.tree, c).Some?
    ensures var piece := PieceOf(s.v.tree, c).value;
            HasBytes(after.v.tree, piece.file, piece.offset, piece.data)
  {
    hide HasBytes, WroteTo, Writes, WritesTo, Opened, Resolved, CanWrite;
    var (t, piece) := (s.v.tree, PieceOf(s.v.tree, c).value);
    match c {
      case WriteFile(path, words) =>
        WritesMean(s, path, piece.data, true, after);
        WrittenHolds(Opened(t, path).value.0, piece.file, 0, piece.data, after.v.tree);
      case WriteBytes(path, offset, data) =>
        WroteIsTree(s, piece.file, offset, data, true, after);
        WrittenHolds(t, piece.file, offset, data, after.v.tree);
      case _ =>
    }
  }

  lemma MadeKeeps(s: Snapshot, path: string, made: Content, after: Tree, q: Path, offset: nat, data: seq<byte>)
    requires Creatable(s.v.tree, path) && HasBytes(s.v.tree, q, offset, data)
    requires after == Link(s.v.tree, Target(s.v.tree, path).value, FileName(path), made)
    ensures HasBytes(after, q, offset, data)
  {
    hide HasBytes, Resolved;
    LinkedElsewhere(s.v.tree, Target(s.v.tree, path).value, FileName(path), made, q, offset, data);
  }

  lemma OpenedHolds(t: Tree, path: string, q: Path, offset: nat, data: seq<byte>)
    requires Opened(t, path).Some? && HasBytes(t, q, offset, data)
    ensures HasBytes(Opened(t, path).value.0, q, offset, data)
  {
    hide HasBytes, Resolved;
    if Resolved(t, path).None? {
      LinkedElsewhere(t, Target(t, path).value, FileName(path), File([]), q, offset, data);
    }
  }

  /** `write` to another file, or over other bytes. */
  lemma WriteFileKeeps(s: Snapshot, path: string, text: seq<byte>, ok: bool, after: Snapshot,
                       q: Path, offset: nat, data: seq<byte>)
    requires Writes(s, path, text, ok, after) && HasBytes(s.v.tree, q, offset, data)
    requires Opened(s.v.tree, path).Some? && Opened(s.v.tree, path).value.1 == q ==> !Overlap(0, |text|, offset, |data|)
    ensures HasBytes(after.v.tree, q, offset, data)
  {
    hide HasBytes, WroteTo, Writes, Opened, Resolved, Overlap;
    WritesMean(s, path, text, ok, after);
    if Opened(s.v.tree, path).Some? {
      OpenedHolds(s.v.tree, path, q, offset, data);
      if ok {
        var (start, p) := Opened(s.v.tree, path).value;
        WrittenElsewhere(start, p, 0, text, after.v.tree, q, offset, data);
      }
    }
  }

  /** What a command does not disturb stays. */
  lemma EffectKeepsBytes(s: Snapshot, c: Command, o: Outcome, after: Snapshot, q: Path, offset: nat, data: seq<byte>)
    requires Effect(s, c, o, after) && HasBytes(s.v.tree, q, offset, data)
    requires !Disturbs(s.v.tree, c, q, offset, |data|)
    ensures HasBytes(after.v.tree, q, offset, data)
  {
    hide HasBytes, WroteTo, Writes, WritesTo, Opened, Resolved, CanWrite, Creatable, Target, Under;
    match c {
      case MakeDir(path) =>
        if o.ok {
          MadeKeeps(s, path, Dir([]), after.v.tree, q, offset, data);
        }
      case MakeFile(path) =>
        if o.ok {
          MadeKeeps(s, path, File([]), after.v.tree, q, offset, data);
        }
      case Remove(path) =>
        if o.ok {
          PrunedElsewhere(s.v.tree, Target(s.v.tree, path).value, FileName(path), q, offset, data);
        }
      case WriteFile(path, words) => WriteFileKeeps(s, path, ToBytes(Joined(words)), o.ok, after, q, offset, data);
      case WriteBytes(path, at, more) =>
        if Resolved(s.v.tree, path).Some? {
          var (p, ok) := (Resolved(s.v.tree, path).value, WriteFitsThere(s, path, at + |more|));
          WroteIsTree(s, p, at, more, ok, after);
          if ok {
            WrittenElsewhere(s.v.tree, p, at, more, after.v.tree, q, offset, data);
          }
        }
      case _ =>
    }
  }

  // ---- Sessions -----------------------------------------------------------------

  /** No command from the `i`-th up to the `j`-th may change these bytes. */
  ghost predicate Undisturbed(states: seq<Snapshot>, commands: seq<Command>, i: nat, j: nat, q: Path, offset: nat,
                              n: nat) {
    j <= |commands| < |states| && forall k :: i <= k < j ==> !Disturbs(states[k].v.tree, commands[k], q, offset, n)
  }

  lemma {:induction false} RunKeepsBytes(states: seq<Snapshot>, commands: seq<Command>, outcomes: seq<Outcome>,
                                         i: nat, j: nat, q: Path, offset: nat, data: seq<byte>)
    requires Trace(states, commands, outcomes) && i <= j && Undisturbed(states, commands, i, j, q, offset, |data|)
    requires HasBytes(states[i].v.tree, q, offset, data)
    ensures HasBytes(states[j].v.tree, q, offset, data)
    decreases j
  {
    hide HasBytes, Effect, Disturbs;
    if i < j {
      RunKeepsBytes(states, commands, outcomes, i, j - 1, q, offset, data);
      EffectKeepsBytes(states[j - 1], commands[j - 1], outcomes[j - 1], states[j], q, offset, data);
    }
  }

  lemma ReadOfBytes(t: Tree, path: string, q: Path, offset: nat, data: seq<byte>, from: nat, size: nat)
    requires HasBytes(t, q, offset, data) && Resolved(t, path) == Some(q)
    requires offset <= from && from + size <= offset + |data|
    ensures ReadThere(t, path, from, size) == data[from - offset..][..size]
  {
    var bytes := t[q].bytes;
    assert bytes[from..from + size] == bytes[offset..offset + |data|][from - offset..][..size];
  }

  /** In any session: a read inside what the `i`-th command wrote shows just that, whatever came in between without
      writing over it or removing the file, and however the paths of the two are written. */
  lemma LastWriteIsRead(states: seq<Snapshot>, commands: seq<Command>, outcomes: seq<Outcome>, i: nat, j: nat)
    requires Trace(states, commands, outcomes) && i < j < |commands|
    requires outcomes[i].ok && PieceOf(states[i].v.tree, commands[i]).Some?
    requires var piece := PieceOf(states[i].v.tree, commands[i]).value;
             && Undisturbed(states, commands, i + 1, j, piece.file, piece.offset, |piece.data|)
             && commands[j].ReadBytes? && Resolved(states[j].v.tree, commands[j].path) == Some(piece.file)
             && piece.offset <= commands[j].offset
             && commands[j].offset + commands[j].size <= piece.offset + |piece.data|
    ensures var piece := PieceOf(states[i].v.tree, commands[i]).value;
            outcomes[j].shown == Some(piece.data[commands[j].offset - piece.offset..][..commands[j].size])
  {
    hide HasBytes, Effect, Undisturbed, PieceOf, Resolved, ReadThere;
    var piece := PieceOf(states[i].v.tree, commands[i]).value;
    assert Effect(states[i], commands[i], outcomes[i], states[i + 1]);
    WriteHolds(states[i], commands[i], outcomes[i], states[i + 1]);
    RunKeepsBytes(states, commands, outcomes, i + 1, j, piece.file, piece.offset, piece.data);
    assert Effect(states[j], commands[j], outcomes[j], states[j + 1]);
    ReadShows(states[j], commands[j], outcomes[j], states[j + 1]);
    ReadOfBytes(states[j].v.tree, commands[j].path, piece.file, piece.offset, piece.data, commands[j].offset,
                commands[j].size);
  }

  lemma ReadShows(s: Snapshot, c: Command, o: Outcome, after: Snapshot)
    requires Effect(s, c, o, after) && c.ReadBytes?
    ensures o.shown == Some(ReadThere(s.v.tree, c.path, c.offset, c.size))
  {
  }
}
