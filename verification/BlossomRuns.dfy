// Uploads in slices, interleaved with everything else the server is asked meanwhile.
module BlossomRuns {
  import opened Wrappers
  import opened Octets
  import opened Blossom
  import Base64
  import Digits
  import Text

  const CHUNK_BYTES: nat := 400 * 1024

  // An upload request cleans up when it arrives and goes on when its body has been read; anything may
  // happen in between.
  datatype Action =
    | Arrive(at: real)
    | Upload(c: Chunk, drawn: string, at: real)
    | Put(data: seq<byte>, at: real)
    | Remove(sha: string, at: real)

  function Step(h: Host, s: Server, a: Action): Server {
    match a
    case Arrive(at) => Swept(s, at)
    case Upload(c, drawn, at) => Received(h, s, c, drawn, at).1
    case Put(data, at) => s.(files := Saved(h, s.files, data).1, now := at)
    case Remove(sha, at) => s.(files := s.files - {sha}, now := at)
  }

  function Exec(h: Host, s: Server, run: seq<Action>): Server
    decreases |run|
  {
    if run == [] then s else Exec(h, Step(h, s, run[0]), run[1..])
  }

  // The clock does not run backwards.
  predicate Ordered(now: real, run: seq<Action>)
    decreases |run|
  {
    run == [] || (now <= run[0].at && Ordered(run[0].at, run[1..]))
  }

  predicate Avoids(run: seq<Action>, id: string) {
    forall a <- run :: a.Upload? ==> UploadId(a.c, a.drawn) != id
  }

  // ---- the store of files --------------------------------------------------------------------------

  // Every file is stored under its own digest.
  ghost predicate Named(h: Host, s: Server) {
    forall sha <- s.files :: h.digest(s.files[sha]) == sha
  }

  lemma NamedStep(h: Host, s: Server, a: Action)
    requires Named(h, s)
    ensures Named(h, Step(h, s, a))
  {
    hide Fresh, Removed, FirstMissing, CheckChunk, UploadId, GoodId;
  }

  lemma {:induction false} FilesAreNamed(h: Host, s: Server, run: seq<Action>)
    requires Named(h, s)
    ensures Named(h, Exec(h, s, run))
    decreases |run|
  {
    hide Step, Named;
    if run != [] {
      NamedStep(h, s, run[0]);
      FilesAreNamed(h, Step(h, s, run[0]), run[1..]);
    }
  }

  // Nothing is stored at first, so every run from there keeps the store named.
  lemma AlwaysNamed(h: Host, s: Server, run: seq<Action>)
    requires s.files == map[]
    ensures var t := Exec(h, s, run); forall sha <- t.files :: h.digest(t.files[sha]) == sha
  {
    FilesAreNamed(h, s, run);
  }

  lemma StoredStep(h: Host, s: Server, a: Action, sha: string)
    requires sha in s.files && !(a.Remove? && a.sha == sha)
    ensures var t := Step(h, s, a); sha in t.files && t.files[sha] == s.files[sha]
  {
    hide Fresh, Removed, FirstMissing, CheckChunk, UploadId, GoodId;
  }

  // A stored file never changes; it goes only by being removed.
  lemma {:induction false} StoredStays(h: Host, s: Server, run: seq<Action>, sha: string)
    requires sha in s.files && forall a <- run :: !(a.Remove? && a.sha == sha)
    ensures var t := Exec(h, s, run); sha in t.files && t.files[sha] == s.files[sha]
    decreases |run|
  {
    hide Step;
    if run != [] {
      assert run[0] in run && forall a <- run[1..] :: a in run;
      StoredStep(h, s, run[0], sha);
      StoredStays(h, Step(h, s, run[0]), run[1..], sha);
    }
  }

  // A file put in one piece is saved like any other.
  lemma PutIsSaved(h: Host, s: Server, data: seq<byte>, at: real)
    ensures Step(h, s, Put(data, at)).files == Saved(h, s.files, data).1 && Step(h, s, Put(data, at)).parts == s.parts
  {
  }

  // A removed file is gone, and no other.
  lemma RemovedIsGone(h: Host, s: Server, sha: string, at: real)
    ensures var t := Step(h, s, Remove(sha, at)); t.files == s.files - {sha} && t.parts == s.parts
  {
  }

  // ---- the client's slices -------------------------------------------------------------------------

  function Total(file: seq<byte>): (n: nat)
    ensures n >= 1 && (n - 1) * CHUNK_BYTES <= |file| <= n * CHUNK_BYTES
    ensures |file| > 0 ==> (n - 1) * CHUNK_BYTES < |file|
    ensures |file| <= MAX_UPLOAD ==> n <= CHUNK_MAX_PARTS
  {
    if |file| == 0 then 1 else (|file| + CHUNK_BYTES - 1) / CHUNK_BYTES
  }

  function Bound(file: seq<byte>, i: nat): (b: nat)
    ensures b <= |file|
  {
    if i * CHUNK_BYTES < |file| then i * CHUNK_BYTES else |file|
  }

  function SliceOf(file: seq<byte>, i: nat): seq<byte> {
    file[Bound(file, i)..Bound(file, i + 1)]
  }

  function ClientChunk(file: seq<byte>, i: nat, upId: string): Chunk {
    Chunk(Total(file), i, Base64.Encoded(SliceOf(file, i)), upId)
  }

  // What others ask of the server before the client's next request arrives, and while its body is read.
  datatype Visit = Visit(gap: seq<Action>, arrived: real, within: seq<Action>, at: real)

  // The state in which a visit's body is handled.
  function Ready(h: Host, s: Server, v: Visit): Server {
    Exec(h, Swept(Exec(h, s, v.gap), v.arrived), v.within)
  }

  // The client keeps the first id it is given.
  function NextId(upId: string, given: string): string {
    if upId != "" then upId else given
  }

  // The client from its i-th slice on: it stops at the first answer that is not "more".
  function Client(h: Host, s: Server, file: seq<byte>, upId: string, drawn: string, i: nat, visits: seq<Visit>)
    : (Response, Server)
    requires visits != []
    decreases |visits|
  {
    var (r, t) := Received(h, Ready(h, s, visits[0]), ClientChunk(file, i, upId), drawn, visits[0].at);
    if r.More? && |visits| > 1 then Client(h, t, file, NextId(upId, r.uploadId), drawn, i + 1, visits[1..]) else (r, t)
  }

  // Others never use this upload id, and the clock does not run backwards.
  predicate Fair(now: real, id: string, visits: seq<Visit>)
    decreases |visits|
  {
    visits == [] || (FairVisit(now, id, visits[0]) && Fair(visits[0].at, id, visits[1..]))
  }

  predicate FairVisit(now: real, id: string, v: Visit) {
    && Ordered(now, v.gap) && Avoids(v.gap, id) && LastTime(now, v.gap) <= v.arrived
    && Ordered(v.arrived, v.within) && Avoids(v.within, id) && LastTime(v.arrived, v.within) <= v.at
  }

  function LastTime(now: real, run: seq<Action>): real
    decreases |run|
  {
    if run == [] then now else LastTime(run[0].at, run[1..])
  }

  function LastSweep(swept: real, run: seq<Action>): real
    decreases |run|
  {
    if run == [] then swept else LastSweep(if run[0].Arrive? then run[0].at else swept, run[1..])
  }

  // The id the server draws for an upload.
  predicate IsDrawn(h: Host, id: string) {
    GoodId(h, id) && Text.Trimmed(id)
  }

  lemma {:induction false} LastTimeIs(h: Host, s: Server, run: seq<Action>)
    requires Ordered(s.now, run)
    ensures Exec(h, s, run).now == LastTime(s.now, run) >= s.now
    ensures Exec(h, s, run).swept == LastSweep(s.swept, run)
    ensures s.swept <= s.now ==> Exec(h, s, run).swept <= Exec(h, s, run).now
    decreases |run|
  {
    hide Received, Saved, Swept;
    if run != [] {
      StepTime(h, s, run[0]);
      LastTimeIs(h, Step(h, s, run[0]), run[1..]);
    }
  }

  lemma StepTime(h: Host, s: Server, a: Action)
    ensures Step(h, s, a).now == a.at && Step(h, s, a).swept == if a.Arrive? then a.at else s.swept
  {
    hide Fresh, Removed, FirstMissing, CheckChunk, UploadId, GoodId;
  }

  // ---- what the server holds of an upload ------------------------------------------------------------

  // The first n parts: each is absent or the client's slice; all are there, unless a clean-up came later
  // than an hour after the first was written, and then the first is gone.
  ghost predicate Held(s: Server, id: string, file: seq<byte>, n: nat, since: real)
    requires n <= 1000
  {
    && (forall k :: 0 <= k < n && PartName(id, k) in s.parts ==>
          var p := s.parts[PartName(id, k)];
          p.data == SliceOf(file, k) && since <= p.mtime && (k == 0 ==> p.mtime == since))
    && (s.swept - since <= STALE_AGE ==> forall k :: 0 <= k < n ==> PartName(id, k) in s.parts)
    && (s.swept - since > STALE_AGE && n > 0 ==> PartName(id, 0) !in s.parts)
    && (n > 0 ==> s.swept <= s.now)
  }

  lemma PartsOfOthers(s: Server, id: string, other: string, i: nat, k: nat)
    requires id != other && i < 1000 && k < 1000
    ensures PartName(id, k) != PartName(other, i)
  {
    if PartName(id, k) == PartName(other, i) {
      PartNameInjective(id, k, other, i);
    }
  }

  // Another upload touches no part of this one.
  lemma OthersKeep(h: Host, s: Server, c: Chunk, drawn: string, at: real, id: string, k: nat)
    requires UploadId(c, drawn) != id && k < 1000
    ensures var name := PartName(id, k);
      var t := Received(h, s, c, drawn, at).1;
      (name in t.parts <==> name in s.parts) && (name in t.parts ==> t.parts[name] == s.parts[name])
  {
    hide UploadId, PartName, GoodId, Text.Strip, Base64.Decoded, Saved, FirstMissing;
    var other := UploadId(c, drawn);
    forall i | 0 <= i < 1000 ensures PartName(id, k) != PartName(other, i) {
      PartsOfOthers(s, id, other, i, k);
    }
  }

  lemma HeldStep(h: Host, s: Server, a: Action, id: string, file: seq<byte>, n: nat, since: real)
    requires n <= 1000 && Held(s, id, file, n, since) && s.now <= a.at && Avoids([a], id)
    ensures Held(Step(h, s, a), id, file, n, since)
  {
    hide Received, PartName, UploadId, SliceOf, Saved;
    StepTime(h, s, a);
    if a.Upload? {
      assert a in [a];
      forall k | 0 <= k < n
        ensures var name := PartName(id, k);
          var t := Step(h, s, a);
          (name in t.parts <==> name in s.parts) && (name in t.parts ==> t.parts[name] == s.parts[name])
      {
        OthersKeep(h, s, a.c, a.drawn, a.at, id, k);
      }
    }
  }

  lemma {:induction false} HeldRun(h: Host, s: Server, run: seq<Action>, id: string, file: seq<byte>, n: nat,
                                   since: real)
    requires n <= 1000 && Held(s, id, file, n, since) && Ordered(s.now, run) && Avoids(run, id)
    ensures Held(Exec(h, s, run), id, file, n, since)
    decreases |run|
  {
    hide Step, Held;
    if run != [] {
      assert run[0] in run && forall a <- run[1..] :: a in run;
      StepTime(h, s, run[0]);
      HeldStep(h, s, run[0], id, file, n, since);
      HeldRun(h, Step(h, s, run[0]), run[1..], id, file, n, since);
    }
  }

  // ---- one request of the client -----------------------------------------------------------------------

  lemma EncodedIsTrimmed(data: seq<byte>)
    ensures Text.Strip(Base64.Encoded(data)) == Base64.Encoded(data)
  {
    hide Base64.Encoded, Text.Strip;
    var s := Base64.Encoded(data);
    Base64.EncodedIsPlain(data);
    if s != "" {
      NoSpaceInBase64(s[0]);
      NoSpaceInBase64(s[|s| - 1]);
    }
    Text.TrimmedStaysSame(s);
  }

  lemma NoSpaceInBase64(c: char)
    requires Base64.SixBits(c) >= 0 || c == '='
    ensures !Text.IsSpace(c)
  {
  }

  lemma SliceSizes(file: seq<byte>, i: nat)
    requires 1 <= |file| <= MAX_UPLOAD && i < Total(file)
    ensures Total(file) <= CHUNK_MAX_PARTS && 1 <= |SliceOf(file, i)| <= 409600
  {
  }

  lemma SliceIsAccepted(file: seq<byte>, i: nat, upId: string)
    requires 1 <= |file| <= MAX_UPLOAD && i < Total(file)
    ensures CheckChunk(ClientChunk(file, i, upId)) == Ok(SliceOf(file, i)) && Total(file) <= CHUNK_MAX_PARTS
  {
    hide Base64.Encoded, Base64.Decoded, Text.Strip, SliceOf, Total;
    SliceSizes(file, i);
    EncodedIsTrimmed(SliceOf(file, i));
    Base64.DecodeEncode(SliceOf(file, i));
  }

  // The state once slice i is written.
  function Written(s: Server, id: string, file: seq<byte>, i: nat, at: real): Server
    requires i < 1000
  {
    s.(parts := s.parts[PartName(id, i) := Part(SliceOf(file, i), at)], now := at)
  }

  lemma SliceIsWritten(h: Host, s: Server, file: seq<byte>, upId: string, drawn: string, i: nat, id: string, at: real)
    requires 1 <= |file| <= MAX_UPLOAD && i < Total(file)
    requires GoodId(h, id) && UploadId(ClientChunk(file, i, upId), drawn) == id
    ensures var n, t := Total(file), Written(s, id, file, i, at);
      Received(h, s, ClientChunk(file, i, upId), drawn, at) ==
        if i < n - 1 then (More(id), t) else Completed(h, t, id, n)
  {
    hide CheckChunk, PartName, SliceOf, Total, Base64.Encoded, GoodId, UploadId;
    SliceIsAccepted(file, i, upId);
  }

  lemma HeldGrows(s: Server, id: string, file: seq<byte>, i: nat, since: real, at: real)
    requires i < 999 && s.swept <= s.now <= at && since <= at && (i == 0 ==> since == at)
    requires Held(s, id, file, i, since)
    ensures Held(Written(s, id, file, i, at), id, file, i + 1, since)
  {
    hide PartName, SliceOf;
    forall k | 0 <= k < i ensures PartName(id, k) != PartName(id, i) {
      SamePart(id, k, i);
    }
  }

  lemma SamePart(id: string, k: nat, i: nat)
    requires k < i < 1000
    ensures PartName(id, k) != PartName(id, i)
  {
    if PartName(id, k) == PartName(id, i) {
      PartNameInjective(id, k, id, i);
    }
  }

  lemma SlicesJoin(file: seq<byte>, n: nat)
    ensures file[..Bound(file, n)] + SliceOf(file, n) == file[..Bound(file, n + 1)]
  {
  }

  lemma {:induction false} AssembledIsFile(s: Server, id: string, file: seq<byte>, n: nat)
    requires n <= 1000
    requires forall k :: 0 <= k < n ==> PartName(id, k) in s.parts && s.parts[PartName(id, k)].data == SliceOf(file, k)
    ensures Assembled(s.parts, id, n) == file[..Bound(file, n)]
  {
    hide PartName, SliceOf;
    if n == 0 {
      assert Bound(file, 0) == 0;
    } else {
      AssembledIsFile(s, id, file, n - 1);
      SlicesJoin(file, n - 1);
    }
  }

  lemma WholeFile(file: seq<byte>)
    ensures file[..Bound(file, Total(file))] == file
  {
  }

  // ---- the whole upload ----------------------------------------------------------------------------------

  lemma LastSlice(h: Host, s: Server, file: seq<byte>, upId: string, drawn: string, id: string, at: real, since: real)
    requires 1 <= |file| <= MAX_UPLOAD && GoodId(h, id)
    requires var i := Total(file) - 1;
      && UploadId(ClientChunk(file, i, upId), drawn) == id
      && s.swept <= s.now <= at && since <= at && (i == 0 ==> since == at)
      && i < 999 && Held(s, id, file, i, since)
    ensures var (r, t) := Received(h, s, ClientChunk(file, Total(file) - 1, upId), drawn, at);
      if s.swept - since <= STALE_AGE then (r, t.files) == Saved(h, s.files, file) else r == Missing(0)
  {
    hide PartName, SliceOf, Saved, Removed, UploadId, GoodId, Received, Assembled;
    var n := Total(file);
    SliceIsWritten(h, s, file, upId, drawn, n - 1, id, at);
    HeldGrows(s, id, file, n - 1, since, at);
    var t := Written(s, id, file, n - 1, at);
    if s.swept - since <= STALE_AGE {
      AssembledIsFile(t, id, file, n);
      WholeFile(file);
    } else {
      assert n > 1;
      SamePart(id, 0, n - 1);
      assert PartName(id, 0) !in t.parts;
    }
  }

  // The last clean-up before the last slice is handled.
  function FinalSweep(visits: seq<Visit>): real
    requires visits != []
  {
    var v := visits[|visits| - 1];
    LastSweep(v.arrived, v.within)
  }

  lemma HeldUntilReady(h: Host, s: Server, v: Visit, id: string, file: seq<byte>, n: nat, since: real)
    requires n <= 1000 && Held(s, id, file, n, since) && FairVisit(s.now, id, v)
    ensures var t := Ready(h, s, v);
      && Held(t, id, file, n, since) && s.now <= t.now <= v.at
      && t.swept == LastSweep(v.arrived, v.within) <= t.now
  {
    hide Held, Exec;
    LastTimeIs(h, s, v.gap);
    HeldRun(h, s, v.gap, id, file, n, since);
    var s1 := Exec(h, s, v.gap);
    var s2 := Swept(s1, v.arrived);
    assert Avoids([Arrive(v.arrived)], id) && Step(h, s1, Arrive(v.arrived)) == s2;
    HeldStep(h, s1, Arrive(v.arrived), id, file, n, since);
    LastTimeIs(h, s2, v.within);
    HeldRun(h, s2, v.within, id, file, n, since);
  }

  lemma IdIsKept(h: Host, file: seq<byte>, i: nat, upId: string, drawn: string)
    requires IsDrawn(h, drawn) && upId in {"", drawn}
    ensures UploadId(ClientChunk(file, i, upId), drawn) == drawn
  {
    hide Text.Strip, Base64.Encoded, SliceOf, Total;
    Text.TrimmedStaysSame(upId);
  }

  // From slice i on, with the slices before it held since the first one was sent.
  lemma {:induction false} ClientEnds(h: Host, s: Server, file: seq<byte>, upId: string, id: string, i: nat,
                                      visits: seq<Visit>, since: real)
    requires 1 <= |file| <= MAX_UPLOAD && IsDrawn(h, id) && upId == (if i == 0 then "" else id)
    requires i < Total(file) && |visits| == Total(file) - i && Fair(s.now, id, visits)
    requires i <= 1000 && Held(s, id, file, i, since) && (if i == 0 then since == visits[0].at else since <= s.now)
    ensures var (r, t) := Client(h, s, file, upId, id, i, visits);
      if FinalSweep(visits) - since <= STALE_AGE then r == Done(h.digest(file), |file|) && h.digest(file) in t.files
      else r == Missing(0)
    decreases |visits|
  {
    hide Received, Held, GoodId, UploadId, Total, SliceOf, Saved, PartName, Ready, FairVisit;
    var at := visits[0].at;
    var s1 := Ready(h, s, visits[0]);
    HeldUntilReady(h, s, visits[0], id, file, i, since);
    IdIsKept(h, file, i, upId, id);
    if |visits| == 1 {
      LastSlice(h, s1, file, upId, id, id, at, since);
      SavedIsDone(h, s1.files, file);
    } else {
      SliceIsWritten(h, s1, file, upId, id, i, id, at);
      HeldGrows(s1, id, file, i, since, at);
      ClientEnds(h, Written(s1, id, file, i, at), file, id, id, i + 1, visits[1..], since);
    }
  }

  lemma SavedIsDone(h: Host, files: map<string, seq<byte>>, file: seq<byte>)
    requires 1 <= |file| <= MAX_UPLOAD
    ensures var (r, after) := Saved(h, files, file); r == Done(h.digest(file), |file|) && h.digest(file) in after
  {
  }

  lemma {:induction false} ClientKeepsNames(h: Host, s: Server, file: seq<byte>, upId: string, drawn: string, i: nat,
                                            visits: seq<Visit>)
    requires visits != [] && Named(h, s)
    ensures Named(h, Client(h, s, file, upId, drawn, i, visits).1)
    decreases |visits|
  {
    hide Received, Named, ClientChunk;
    var v := visits[0];
    var s1 := Ready(h, s, v);
    FilesAreNamed(h, s, v.gap);
    NamedStep(h, Exec(h, s, v.gap), Arrive(v.arrived));
    FilesAreNamed(h, Swept(Exec(h, s, v.gap), v.arrived), v.within);
    var c := ClientChunk(file, i, upId);
    NamedStep(h, s1, Upload(c, drawn, visits[0].at));
    var (r, t) := Received(h, s1, c, drawn, visits[0].at);
    if r.More? && |visits| > 1 {
      ClientKeepsNames(h, t, file, NextId(upId, r.uploadId), drawn, i + 1, visits[1..]);
    }
  }

  // Different contents have different digests.
  ghost predicate CollisionFree(h: Host) {
    forall a, b :: h.digest(a) == h.digest(b) ==> a == b
  }

  // There are such digests.
  lemma CollisionFreeExists(isAlnum: char -> bool) returns (h: Host)
    ensures h.isAlnum == isAlnum && CollisionFree(h)
  {
    var text := (data: seq<byte>) => seq(|data|, i requires 0 <= i < |data| => data[i] as char);
    h := Host(text, isAlnum);
    forall a, b | text(a) == text(b) ensures a == b {
      assert |a| == |text(a)| == |b|;
      forall i | 0 <= i < |a| ensures a[i] == b[i] {
        assert text(a)[i] == text(b)[i];
      }
    }
  }

  // A file of 1 byte to 20 MB, sent in slices between any requests of others, which may also come while a
  // slice is being read: when the last clean-up, the client's own or another's, falls within an hour of
  // the first slice, exactly the file is stored under its digest; otherwise the upload ends in a missing
  // part. Nothing else can happen.
  lemma UploadIsLossless(h: Host, s: Server, file: seq<byte>, id: string, visits: seq<Visit>)
    requires 1 <= |file| <= MAX_UPLOAD && IsDrawn(h, id)
    requires |visits| == Total(file) && Fair(s.now, id, visits)
    ensures var (r, t) := Client(h, s, file, "", id, 0, visits);
      if FinalSweep(visits) - visits[0].at <= 3600.0 then
        && r == Done(h.digest(file), |file|) && h.digest(file) in t.files
        && (Named(h, s) && CollisionFree(h) ==> t.files[h.digest(file)] == file)
      else r == Missing(0)
  {
    hide Client, Total, Fair;
    ClientEnds(h, s, file, "", id, 0, visits, visits[0].at);
    if Named(h, s) {
      ClientKeepsNames(h, s, file, "", id, 0, visits);
    }
  }

  // ---- the client in place -------------------------------------------------------------------------------

  // Nobody else visits: the i-th slice arrives at clock(i).0 and has been read at clock(i).1.
  function Alone(clock: nat -> (real, real), total: nat): seq<Visit> {
    seq(total, i requires 0 <= i < total => Visit([], clock(i).0, [], clock(i).1))
  }

  // A client alone, each slice read after it arrived and before the next one comes, is fair.
  predicate Rising(now: real, clock: nat -> (real, real), from: nat, total: nat)
    decreases total - from
  {
    from >= total || (now <= clock(from).0 <= clock(from).1 && Rising(clock(from).1, clock, from + 1, total))
  }

  lemma {:induction false} AloneIsFair(now: real, id: string, clock: nat -> (real, real), from: nat, total: nat)
    requires from <= total && Rising(now, clock, from, total)
    ensures Fair(now, id, Alone(clock, total)[from..])
    decreases total - from
  {
    var visits := Alone(clock, total);
    if from < total {
      AloneIsFair(clock(from).1, id, clock, from + 1, total);
      assert visits[from..][0] == Visit([], clock(from).0, [], clock(from).1);
      assert visits[from..][1..] == visits[from + 1..];
    }
  }

  // So its upload succeeds exactly when the last slice arrives within an hour of the first being read.
  lemma AloneIsStored(h: Host, s: Server, file: seq<byte>, id: string, clock: nat -> (real, real))
    requires 1 <= |file| <= MAX_UPLOAD && IsDrawn(h, id) && Rising(s.now, clock, 0, Total(file))
    ensures var (r, t) := Client(h, s, file, "", id, 0, Alone(clock, Total(file)));
      if clock(Total(file) - 1).0 - clock(0).1 <= 3600.0 then
        r == Done(h.digest(file), |file|) && h.digest(file) in t.files
      else r == Missing(0)
  {
    hide Client, Total, Fair, Rising;
    var visits := Alone(clock, Total(file));
    assert visits[0..] == visits;
    AloneIsFair(s.now, id, clock, 0, Total(file));
    UploadIsLossless(h, s, file, id, visits);
  }

  function Percent(loaded: nat, size: nat): (pct: nat)
    requires size > 0
    ensures 1 <= pct <= 99
  {
    var rounded := (200 * loaded + size) / (2 * size);
    if rounded < 1 then 1 else if rounded > 99 then 99 else rounded
  }

  // The share sent so far, rounded half up, but never 0 and never 100.
  lemma PercentIs(loaded: nat, size: nat, exact: nat)
    requires size > 0 && loaded <= size && (2 * exact - 1) * size <= 200 * loaded < (2 * exact + 1) * size
    ensures Percent(loaded, size) == if exact == 0 then 1 else if exact == 100 then 99 else exact
  {
    var rounded := (200 * loaded + size) / (2 * size);
    assert (2 * exact - 1) * size == 2 * exact * size - size && (2 * exact + 1) * size == 2 * exact * size + size;
    Quotient(200 * loaded + size, 2 * size, exact);
    if exact > 100 {
      Digits.MulMono(201, 2 * exact - 1, size);
      assert false;
    }
  }

  lemma Quotient(n: nat, d: nat, q: nat)
    requires d > 0 && q * d <= n < q * d + d
    ensures n / d == q
  {
    assert n == q * d + (n - q * d);
    assert (n - q * d) / d == 0;
    Digits.Quotient(n, d, q, n - q * d);
  }

  // `pct` is the progress shown after the last slice that was answered with "more".
  method UploadToBlossom(h: Host, server: BlossomServer, file: seq<byte>, drawn: string,
                         clock: nat -> (real, real))
    returns (r: Response, pct: nat)
    modifies server
    ensures (r, server.Value()) == Client(h, old(server.Value()), file, "", drawn, 0, Alone(clock, Total(file)))
    ensures pct <= 99
  {
    hide Received, Total, Swept;
    var total := Total(file);
    ghost var visits := Alone(clock, total);
    ghost var start := server.Value();
    var upId, loaded := "", 0;
    pct := 0;
    r := Missing(0);
    assert visits[0..] == visits;
    for i := 0 to total
      invariant loaded <= |file| && loaded == Bound(file, i) && pct <= 99
      invariant i < total ==> Client(h, server.Value(), file, upId, drawn, i, visits[i..])
                              == Client(h, start, file, "", drawn, 0, visits)
      invariant i == total ==> (r, server.Value()) == Client(h, start, file, "", drawn, 0, visits)
    {
      assert visits[i..][0] == Visit([], clock(i).0, [], clock(i).1) && visits[i..][1..] == visits[i + 1..];
      server.CleanupStale(clock(i).0);
      r := server.UploadChunk(h, ClientChunk(file, i, upId), drawn, clock(i).1);
      if !r.More? {
        return;
      }
      upId := NextId(upId, r.uploadId);
      loaded := loaded + |SliceOf(file, i)|;
      if file != [] {
        pct := Percent(loaded, |file|);
      }
    }
  }
}
