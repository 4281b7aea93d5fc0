/** Replacing the cache directory (`write_split_cache_files`, `atomic_directory_replace`) when any number
    of processes do it at once and may fail or crash between any two file-system calls.
    `rename` is that of POSIX.1-2017: it fails when the target directory is not empty. */
module DirectoryReplace {
  import opened Common
  import opened Segments
  import opened Runs

  /** Where a writer is: about to write segment `next`, removing the old directory, about to rename,
      cleaning up after a failed rename, or at an end. */
  datatype Phase =
    | Writing(next: nat)
    | Removing
    | Renaming
    | CleaningTemp
    | CleaningDir
    | Finished(ok: bool)
    | Crashed

  /** One call of `write_split_cache_files`. The random identifier gives it a temporary directory of its own. */
  datatype Writer = Writer(segments: seq<seq<Byte>>, phase: Phase, temp: Option<Files>)

  /** `dir` is the cache directory; `published` is the snapshot of the last successful rename, and `epoch`
      the number of successful renames. */
  datatype Fs = Fs(
    base: string, writers: map<nat, Writer>, dir: Option<Files>, published: seq<seq<Byte>>, epoch: nat)

  datatype Action =
    | Start(w: nat, segments: seq<seq<Byte>>)
    | WriteSegment(w: nat)
    | WriteFails(w: nat, partial: Files)
    | BeginReplace(w: nat)
    | Unlink(w: nat, name: string)
    | RemoveDir(w: nat)
    | StopRemoving(w: nat)
    | RenameOk(w: nat)
    | RenameFails(w: nat)
    | CleanTemp(w: nat, left: Option<Files>)
    | StopCleaning(w: nat)
    | Crash(w: nat, left: Option<Files>)

  function With(s: Fs, w: nat, x: Writer): Fs {
    s.(writers := s.writers[w := x])
  }

  ghost predicate At(s: Fs, w: nat, p: Phase) {
    w in s.writers && s.writers[w].phase == p
  }

  /** `remove_dir_all` on the cache directory: in the first attempt and in the error path. */
  ghost predicate Deleting(s: Fs, w: nat) {
    At(s, w, Removing) || At(s, w, CleaningDir)
  }

  ghost predicate Step(s: Fs, a: Action, t: Fs) {
    match a
    case Start(w, segments) =>
      w !in s.writers && t == With(s, w, Writer(segments, Writing(0), Some(map[])))
    case WriteSegment(w) =>
      && w in s.writers
      && var x := s.writers[w];
      && x.phase.Writing? && x.phase.next < |x.segments| && x.temp.Some?
      && t == With(s, w, x.(
            phase := Writing(x.phase.next + 1),
            temp := Some(x.temp.value[FileName(s.base, x.phase.next) := x.segments[x.phase.next]])))
    case WriteFails(w, partial) =>
      && w in s.writers && s.writers[w].phase.Writing?
      && t == With(s, w, s.writers[w].(phase := Finished(false), temp := Some(partial)))
    case BeginReplace(w) =>
      && w in s.writers && s.writers[w].phase == Writing(|s.writers[w].segments|)
      && t == With(s, w, s.writers[w].(phase := Removing))
    case Unlink(w, name) =>
      && Deleting(s, w) && s.dir.Some? && name in s.dir.value
      && t == s.(dir := Some(s.dir.value - {name}))
    case RemoveDir(w) =>
      Deleting(s, w) && s.dir == Some(map[]) && t == s.(dir := None)
    case StopRemoving(w) =>
      At(s, w, Removing) && t == With(s, w, s.writers[w].(phase := Renaming))
    case RenameOk(w) =>
      && At(s, w, Renaming) && s.writers[w].temp.Some?
      && (s.dir == None || s.dir == Some(map[]))
      && t == With(s, w, s.writers[w].(phase := Finished(true), temp := None))
              .(dir := s.writers[w].temp, published := s.writers[w].segments, epoch := s.epoch + 1)
    case RenameFails(w) =>
      At(s, w, Renaming) && t == With(s, w, s.writers[w].(phase := CleaningTemp))
    case CleanTemp(w, left) =>
      At(s, w, CleaningTemp) && t == With(s, w, s.writers[w].(phase := CleaningDir, temp := left))
    case StopCleaning(w) =>
      At(s, w, CleaningDir) && t == With(s, w, s.writers[w].(phase := Finished(false)))
    case Crash(w, left) =>
      && w in s.writers && !s.writers[w].phase.Finished?
      && t == With(s, w, s.writers[w].(phase := Crashed, temp := left))
  }

  ghost predicate WriterOk(base: string, x: Writer) {
    match x.phase
    case Writing(i) => i <= |x.segments| && x.temp == Some(SegmentFiles(base, x.segments[..i]))
    case Removing => x.temp == Some(SegmentFiles(base, x.segments))
    case Renaming => x.temp == Some(SegmentFiles(base, x.segments))
    case _ => true
  }

  /** The cache directory holds files of one snapshot only, the one published last. */
  ghost predicate OneSnapshot(s: Fs) {
    s.dir.Some? ==> PartOf(s.dir.value, SegmentFiles(s.base, s.published))
  }

  ghost predicate Inv(s: Fs) {
    && OneSnapshot(s)
    && forall w :: w in s.writers ==> WriterOk(s.base, s.writers[w])
  }

  /** At first no writer runs; the directory is missing or left over from an earlier snapshot. */
  ghost predicate Initial(s: Fs) {
    s.writers == map[] && OneSnapshot(s)
  }

  lemma WriteKeepsInv(s: Fs, a: Action, t: Fs)
    requires Inv(s) && a.WriteSegment? && Step(s, a, t)
    ensures Inv(t)
  {
    var x := s.writers[a.w];
    var i := x.phase.next;
    assert WriterOk(s.base, x);
    assert x.segments[..i + 1][..i] == x.segments[..i];
    assert WriterOk(s.base, t.writers[a.w]);
  }

  lemma BeginKeepsInv(s: Fs, a: Action, t: Fs)
    requires Inv(s) && a.BeginReplace? && Step(s, a, t)
    ensures Inv(t)
  {
    var x := s.writers[a.w];
    assert WriterOk(s.base, x);
    assert x.segments[..|x.segments|] == x.segments;
    assert WriterOk(s.base, t.writers[a.w]);
  }

  lemma RenameKeepsInv(s: Fs, a: Action, t: Fs)
    requires Inv(s) && a.RenameOk? && Step(s, a, t)
    ensures Inv(t) && t.dir == Some(SegmentFiles(s.base, s.writers[a.w].segments))
  {
    assert WriterOk(s.base, s.writers[a.w]);
  }

  lemma StepKeepsInv(s: Fs, a: Action, t: Fs)
    requires Inv(s) && Step(s, a, t)
    ensures Inv(t)
  {
    match a
    case Start(w, segments) =>
      assert segments[..0] == [];
      assert WriterOk(t.base, t.writers[w]);
    case WriteSegment(_) => WriteKeepsInv(s, a, t);
    case BeginReplace(_) => BeginKeepsInv(s, a, t);
    case RenameOk(_) => RenameKeepsInv(s, a, t);
    case _ =>
  }

  lemma RunKeepsInv(states: seq<Fs>, acts: seq<Action>, n: nat)
    requires Run(Step, states, acts) && Initial(states[0]) && n <= |acts|
    ensures Inv(states[n])
  {
    forall s, a, t | Inv(s) && Step(s, a, t) ensures Inv(t) {
      StepKeepsInv(s, a, t);
    }
    Invariant(Step, Inv, states, acts, n);
  }

  /** At every instant of every run the directory holds files of a single snapshot, never a mix. */
  lemma NeverMixed(states: seq<Fs>, acts: seq<Action>, n: nat)
    requires Run(Step, states, acts) && Initial(states[0]) && n <= |acts|
    ensures OneSnapshot(states[n])
  {
    RunKeepsInv(states, acts, n);
  }

  /** A successful rename publishes all of the writer's files, and loading them, in whatever order they
      are listed, yields exactly the content the writer serialized. */
  lemma RenamePublishes(
    states: seq<Fs>, acts: seq<Action>, n: nat, content: seq<Byte>, max: nat, listing: seq<string>)
    requires Run(Step, states, acts) && Initial(states[0]) && n < |acts| && acts[n].RenameOk?
    requires max > 0 && |Split(content, max)| < 0x1_0000_0000
    requires acts[n].w in states[n].writers && states[n].writers[acts[n].w].segments == Split(content, max)
    requires multiset(listing) == multiset(Names(states[n].base, |Split(content, max)|))
    ensures states[n + 1].dir == Some(SegmentFiles(states[n].base, Split(content, max)))
    ensures forall f :: f in listing ==> f in states[n + 1].dir.value
    ensures Loaded(states[n].base, states[n + 1].dir.value, listing) == content
  {
    RunKeepsInv(states, acts, n);
    var a := acts[n];
    RenameKeepsInv(states[n], a, states[n + 1]);
    var base, segments := states[n].base, Split(content, max);
    ListedAreSegments(base, segments, listing);
    RoundTrip(base, content, max, SegmentFiles(base, segments), listing);
  }

  /** Between two renames the directory only loses files. */
  lemma OnlyRenameAdds(s: Fs, a: Action, t: Fs)
    requires Step(s, a, t) && !a.RenameOk?
    ensures t.published == s.published && t.base == s.base && t.epoch == s.epoch
    ensures t.dir.Some? ==> s.dir.Some? && PartOf(t.dir.value, s.dir.value)
  {
  }

  /** What a reader finds under `name` at instant `n`. */
  ghost predicate Reads(states: seq<Fs>, n: nat, name: string, data: seq<Byte>)
    requires n < |states|
  {
    states[n].dir.Some? && name in states[n].dir.value && states[n].dir.value[name] == data
  }

  predicate RenameBetween(acts: seq<Action>, i: nat, n: nat)
    requires n <= |acts|
  {
    exists k :: i <= k < n && acts[k].RenameOk?
  }

  lemma {:induction false} PublishedConstant(states: seq<Fs>, acts: seq<Action>, i: nat, n: nat)
    requires Run(Step, states, acts) && i <= n <= |acts|
    ensures states[i].epoch <= states[n].epoch && states[n].base == states[i].base
    ensures states[n].epoch == states[i].epoch <==> !RenameBetween(acts, i, n)
    ensures !RenameBetween(acts, i, n) ==> states[n].published == states[i].published
    decreases n
  {
    if i < n {
      PublishedConstant(states, acts, i, n - 1);
      var a := acts[n - 1];
      if a.RenameOk? {
        assert RenameBetween(acts, i, n);
      } else {
        OnlyRenameAdds(states[n - 1], a, states[n]);
        assert RenameBetween(acts, i, n) <==> RenameBetween(acts, i, n - 1);
      }
    }
  }

  /** A reader opens the files one after the other. What it finds first and last is of one publication exactly
      when no rename succeeds in between; all it finds is then of that one's snapshot. */
  lemma ReaderSeesOneSnapshot(states: seq<Fs>, acts: seq<Action>, i: nat, j: nat, n: nat, name: string, data: seq<Byte>)
    requires Run(Step, states, acts) && Initial(states[0]) && i <= n <= j <= |acts|
    requires Reads(states, n, name, data)
    ensures states[i].epoch == states[j].epoch <==> !RenameBetween(acts, i, j)
    ensures !RenameBetween(acts, i, j) ==>
              && name in SegmentFiles(states[i].base, states[i].published)
              && SegmentFiles(states[i].base, states[i].published)[name] == data
  {
    RunKeepsInv(states, acts, n);
    PublishedConstant(states, acts, i, j);
    PublishedConstant(states, acts, i, n);
    if RenameBetween(acts, i, n) {
      assert RenameBetween(acts, i, j);
    }
  }

  // ---------------------------------------------------------------- a whole load

  /** The file has been there since instant `i`, in the directory as it was published then. */
  ghost predicate Found(states: seq<Fs>, i: nat, n: nat, name: string)
    requires i < |states| && n < |states|
  {
    states[n].dir.Some? && name in states[n].dir.value && states[n].epoch == states[i].epoch
  }

  /** Nobody unlinks the file or replaces the directory. */
  ghost predicate Untouched(acts: seq<Action>, i: nat, n: nat, name: string)
    requires n <= |acts|
  {
    forall k :: i <= k < n ==> !Touches(acts[k], name)
  }

  predicate Touches(a: Action, name: string) {
    a.RenameOk? || (a.Unlink? && a.name == name)
  }

  ghost predicate Holds(s: Fs, name: string) {
    s.dir.Some? && name in s.dir.value
  }

  lemma StepOnFile(s: Fs, a: Action, t: Fs, name: string)
    requires Step(s, a, t)
    ensures Holds(s, name) ==> (Holds(t, name) && t.epoch == s.epoch <==> !Touches(a, name))
    ensures !a.RenameOk? && Holds(t, name) ==> Holds(s, name) && t.dir.value[name] == s.dir.value[name]
    ensures t.epoch == if a.RenameOk? then s.epoch + 1 else s.epoch
  {
  }

  /** A listed file is found in the publication listed exactly when nobody has touched it since, and then with
      the same content. */
  lemma {:induction false} FoundExactly(states: seq<Fs>, acts: seq<Action>, i: nat, n: nat, name: string)
    requires Run(Step, states, acts) && i <= n <= |acts| && Holds(states[i], name)
    ensures states[i].epoch <= states[n].epoch
    ensures Found(states, i, n, name) <==> Untouched(acts, i, n, name)
    ensures Found(states, i, n, name) ==> states[n].dir.value[name] == states[i].dir.value[name]
    decreases n
  {
    if i < n {
      FoundExactly(states, acts, i, n - 1, name);
      var a := acts[n - 1];
      StepOnFile(states[n - 1], a, states[n], name);
      assert Untouched(acts, i, n, name) <==> Untouched(acts, i, n - 1, name) && !Touches(a, name);
    }
  }

  /** `read` holds what is found under each listed name at that name's instant. */
  ghost predicate ReadAt(states: seq<Fs>, listing: seq<string>, at: map<string, nat>, read: Files) {
    forall name :: name in listing ==>
      name in at && name in read && at[name] < |states| && Reads(states, at[name], name, read[name])
  }

  /** A load lists the complete directory at instant `i` and then reads file by file. Every file is found in
      the publication listed exactly when no listed file is unlinked or replaced before it is read, and the
      load then yields the content published. */
  lemma LoadExactly(
    states: seq<Fs>, acts: seq<Action>, i: nat, content: seq<Byte>, max: nat,
    listing: seq<string>, at: map<string, nat>)
    requires Run(Step, states, acts) && i <= |acts| && max > 0 && |Split(content, max)| < 0x1_0000_0000
    requires states[i].dir == Some(SegmentFiles(states[i].base, Split(content, max)))
    requires multiset(listing) == multiset(Names(states[i].base, |Split(content, max)|))
    requires forall name :: name in listing ==> name in at && i <= at[name] <= |acts|
    ensures (forall name :: name in listing ==> Found(states, i, at[name], name)) <==>
            (forall name :: name in listing ==> Untouched(acts, i, at[name], name))
    ensures forall read: Files ::
              && ReadAt(states, listing, at, read)
              && (forall name :: name in listing ==> Untouched(acts, i, at[name], name)) ==>
                Loaded(states[i].base, read, listing) == content
  {
    var base, segments := states[i].base, Split(content, max);
    ListedAreSegments(base, segments, listing);
    forall name | name in listing
      ensures Found(states, i, at[name], name) <==> Untouched(acts, i, at[name], name)
      ensures Untouched(acts, i, at[name], name) ==>
                states[at[name]].dir.value[name] == SegmentFiles(base, segments)[name] {
      assert Holds(states[i], name);
      FoundExactly(states, acts, i, at[name], name);
    }
    forall read: Files
      | ReadAt(states, listing, at, read) && forall name :: name in listing ==> Untouched(acts, i, at[name], name)
      ensures Loaded(base, read, listing) == content {
      LoadedAgrees(base, read, SegmentFiles(base, segments), listing);
      RoundTrip(base, content, max, SegmentFiles(base, segments), listing);
    }
  }

  /** A load that lists the directory at any instant, perhaps in the middle of its removal, and finds every file
      it has listed, yields the content published exactly when nothing had been removed at that instant. */
  lemma LoadYieldsContentExactly(
    states: seq<Fs>, acts: seq<Action>, i: nat, content: seq<Byte>, max: nat,
    listing: seq<string>, at: map<string, nat>, read: Files)
    requires Run(Step, states, acts) && Initial(states[0]) && i <= |acts|
    requires max > 0 && |Split(content, max)| < 0x1_0000_0000 && content != []
    requires states[i].published == Split(content, max) && states[i].dir.Some?
    requires multiset(listing) == multiset(states[i].dir.value.Keys)
    requires forall name :: name in listing ==> name in at && i <= at[name] <= |acts|
    requires forall name :: name in listing ==> Untouched(acts, i, at[name], name)
    requires ReadAt(states, listing, at, read)
    ensures Loaded(states[i].base, read, listing) == content <==>
            states[i].dir.value == SegmentFiles(states[i].base, Split(content, max))
  {
    var base, found := states[i].base, states[i].dir.value;
    RunKeepsInv(states, acts, i);
    forall name | name in listing ensures name in found && read[name] == found[name] {
      assert name in multiset(listing);
      assert Holds(states[i], name);
      FoundExactly(states, acts, i, at[name], name);
    }
    LoadedAgrees(base, read, found, listing);
    PartialLoad(base, content, max, found, listing);
  }

  lemma ListedAreSegments(base: string, segments: seq<seq<Byte>>, listing: seq<string>)
    requires multiset(listing) == multiset(Names(base, |segments|))
    ensures forall f :: f in listing ==> f in SegmentFiles(base, segments)
  {
    forall f | f in listing ensures f in SegmentFiles(base, segments) {
      assert f in multiset(listing);
      assert f in Names(base, |segments|);
      var i :| 0 <= i < |segments| && Names(base, |segments|)[i] == f;
      SegmentFilesAt(base, segments, i);
    }
  }

  const OLD: seq<seq<Byte>> := [[0], [0]]
  const NEW: seq<seq<Byte>> := [[1], [1]]

  /** A single writer of `NEW` over what an earlier save of `OLD` left, before and after its rename. */
  function Stage(base: string, phase: Phase, temp: Option<Files>, dir: Files): Fs {
    Fs(base, map[0 := Writer(NEW, phase, temp)], Some(dir), OLD, 0)
  }

  function Done(base: string, dir: Files): Fs {
    Fs(base, map[0 := Writer(NEW, Finished(true), None)], Some(dir), NEW, 1)
  }

  lemma WritesBoth(base: string, dir: Files) returns (states: seq<Fs>, acts: seq<Action>)
    ensures Run(Step, states, acts) && |acts| == 3
    ensures states[0] == Fs(base, map[], Some(dir), OLD, 0)
    ensures states[3] == Stage(base, Writing(2), Some(map[FileName(base, 0) := [1], FileName(base, 1) := [1]]), dir)
  {
    var f, g := FileName(base, 0), FileName(base, 1);
    states := [
      Fs(base, map[], Some(dir), OLD, 0),
      Stage(base, Writing(0), Some(map[]), dir),
      Stage(base, Writing(1), Some(map[f := [1]]), dir),
      Stage(base, Writing(2), Some(map[f := [1], g := [1]]), dir)];
    acts := [Start(0, NEW), WriteSegment(0), WriteSegment(0)];
  }

  lemma RemovesOld(base: string, f: string, temp: Files) returns (states: seq<Fs>, acts: seq<Action>)
    ensures Run(Step, states, acts) && |acts| == 2
    ensures states[0] == Stage(base, Writing(2), Some(temp), map[f := [0]])
    ensures states[2] == Stage(base, Removing, Some(temp), map[])
  {
    assert map[f := [0]] - {f} == map[];
    states := [
      Stage(base, Writing(2), Some(temp), map[f := [0]]),
      Stage(base, Removing, Some(temp), map[f := [0]]),
      Stage(base, Removing, Some(temp), map[])];
    acts := [BeginReplace(0), Unlink(0, f)];
  }

  lemma RenamesNew(base: string, temp: Files) returns (states: seq<Fs>, acts: seq<Action>)
    ensures Run(Step, states, acts) && |acts| == 2
    ensures states[0] == Stage(base, Removing, Some(temp), map[]) && states[2] == Done(base, temp)
  {
    states := [
      Stage(base, Removing, Some(temp), map[]), Stage(base, Renaming, Some(temp), map[]), Done(base, temp)];
    acts := [StopRemoving(0), RenameOk(0)];
  }

  lemma ReplacesAll(base: string, f: string, temp: Files) returns (states: seq<Fs>, acts: seq<Action>)
    ensures Run(Step, states, acts) && |acts| == 4
    ensures states[0] == Stage(base, Writing(2), Some(temp), map[f := [0]])
    ensures states[4] == Done(base, temp)
  {
    var removing, first := RemovesOld(base, f, temp);
    var renaming, second := RenamesNew(base, temp);
    Join(Step, removing, first, renaming, second);
    states, acts := removing + renaming[1..], first + second;
  }

  /** With a rename in between, the first file read can be the old snapshot's and the second the new one's,
      although the directory was never mixed. */
  lemma ReaderMayMix(base: string) returns (states: seq<Fs>, acts: seq<Action>)
    ensures Run(Step, states, acts) && Initial(states[0])
    ensures states[0].published == OLD && Reads(states, 0, FileName(base, 0), OLD[0])
    ensures states[|acts|].published == NEW && Reads(states, |acts|, FileName(base, 1), NEW[1])
  {
    var f, g := FileName(base, 0), FileName(base, 1);
    FileNameInjective(base, 0, 1);
    SegmentFilesAt(base, OLD, 0);
    var before, temp: Files := map[f := [0]], map[f := [1], g := [1]];
    var writing, first := WritesBoth(base, before);
    var replacing, second := ReplacesAll(base, f, temp);
    Join(Step, writing, first, replacing, second);
    states, acts := writing + replacing[1..], first + second;
  }
}
