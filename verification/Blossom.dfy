// Chunked upload: part files, their assembly, and the store of files named by their digest.
module Blossom {
  import opened Wrappers
  import opened Octets
  import Base64
  import Text

  const MAX_UPLOAD: nat := 20 * 1024 * 1024
  const CHUNK_MAX: nat := 450 * 1024
  const CHUNK_MAX_B64: nat := CHUNK_MAX * 4 / 3
  const CHUNK_MAX_PARTS: nat := 64
  const STALE_AGE: real := 3600.0

  // SHA-256 in hex, and str.isalnum for one character.
  datatype Host = Host(digest: seq<byte> -> string, isAlnum: char -> bool)

  datatype Part = Part(data: seq<byte>, mtime: real)

  // The part directory by file name, the upload directory by digest, and the clock at the last step of a
  // request and at the last clean-up.
  datatype Server = Server(parts: map<string, Part>, files: map<string, seq<byte>>, now: real, swept: real)

  datatype Chunk = Chunk(total: int, index: int, data: string, uploadId: string)

  datatype Response =
    | More(uploadId: string)
    | Done(sha: string, size: nat)
    | Missing(part: nat)
    | Failed(code: nat, error: string)

  // ---- part files ----------------------------------------------------------------------------------

  function Digit(n: nat): char
    requires n < 10
  {
    ('0' as int + n) as char
  }

  function PartName(id: string, index: nat): string
    requires index < 1000
  {
    id + ['_', Digit(index / 100), Digit(index / 10 % 10), Digit(index % 10)] + ".part"
  }

  // Two uploads never share a part file.
  lemma PartNameInjective(a: string, i: nat, b: string, j: nat)
    requires i < 1000 && j < 1000 && PartName(a, i) == PartName(b, j)
    ensures a == b && i == j
  {
    hide Digit;
    var x, y := PartName(a, i), PartName(b, j);
    assert |a| == |b|;
    assert a == x[..|a|] && b == y[..|b|];
    assert x[|a| + 1] == Digit(i / 100) && y[|a| + 1] == Digit(j / 100);
    assert x[|a| + 2] == Digit(i / 10 % 10) && y[|a| + 2] == Digit(j / 10 % 10);
    assert x[|a| + 3] == Digit(i % 10) && y[|a| + 3] == Digit(j % 10);
    ThreeDigits(i, j);
  }

  function DigitValue(c: char): int {
    c as int - '0' as int
  }

  // The name is the id, an underscore, the index in three decimal digits, and the suffix.
  lemma PartNameIs(id: string, i: nat)
    requires i < 1000
    ensures var x, n := PartName(id, i), |id|;
      && |x| == n + 9 && x[..n] == id && x[n] == '_' && x[n + 4..] == ".part"
      && (forall k :: n < k < n + 4 ==> '0' <= x[k] <= '9')
      && DigitValue(x[n + 1]) * 100 + DigitValue(x[n + 2]) * 10 + DigitValue(x[n + 3]) == i
  {
  }

  lemma ThreeDigits(i: nat, j: nat)
    requires i < 1000 && j < 1000
    requires Digit(i / 100) == Digit(j / 100) && Digit(i / 10 % 10) == Digit(j / 10 % 10)
    requires Digit(i % 10) == Digit(j % 10)
    ensures i == j
  {
    hide Digit;
    DigitInjective(i / 100, j / 100);
    DigitInjective(i / 10 % 10, j / 10 % 10);
    DigitInjective(i % 10, j % 10);
    InDigits(i);
    InDigits(j);
  }

  lemma InDigits(i: nat)
    ensures i == i / 100 * 100 + i / 10 % 10 * 10 + i % 10
  {
    assert i / 100 == i / 10 / 10;
  }

  lemma DigitInjective(m: nat, n: nat)
    requires m < 10 && n < 10 && Digit(m) == Digit(n)
    ensures m == n
  {
    assert Digit(m) as int == '0' as int + m && Digit(n) as int == '0' as int + n;
  }

  // ---- requests as functions -----------------------------------------------------------------------

  function Fresh(parts: map<string, Part>, now: real): map<string, Part> {
    map name | name in parts && now - parts[name].mtime <= STALE_AGE :: parts[name]
  }

  // What an upload request does as it arrives; its body is read only afterwards.
  function Swept(s: Server, at: real): Server {
    Server(Fresh(s.parts, at), s.files, at, at)
  }

  // The first index below `total` without a part file, `total` when all are there.
  function FirstMissing(parts: map<string, Part>, id: string, total: nat, from: nat): (i: nat)
    requires from <= total <= 1000
    ensures from <= i <= total
    ensures forall k :: from <= k < i ==> PartName(id, k) in parts
    ensures i < total ==> PartName(id, i) !in parts
    decreases total - from
  {
    if from == total || PartName(id, from) !in parts then from else FirstMissing(parts, id, total, from + 1)
  }

  // b"".join(chunks)
  function Assembled(parts: map<string, Part>, id: string, n: nat): seq<byte>
    requires n <= 1000 && forall k :: 0 <= k < n ==> PartName(id, k) in parts
  {
    if n == 0 then [] else Assembled(parts, id, n - 1) + parts[PartName(id, n - 1)].data
  }

  function Removed(parts: map<string, Part>, id: string, total: nat): map<string, Part>
    requires total <= 1000
  {
    map name | name in parts && !(exists k :: 0 <= k < total && name == PartName(id, k)) :: parts[name]
  }

  function Saved(h: Host, files: map<string, seq<byte>>, data: seq<byte>): (Response, map<string, seq<byte>>) {
    if |data| > MAX_UPLOAD then (Failed(413, "file too large"), files)
    else if data == [] then (Failed(400, "empty upload"), files)
    else
      var sha := h.digest(data);
      (Done(sha, |data|), if sha in files then files else files[sha := data])
  }

  function CheckChunk(c: Chunk): Result<seq<byte>, Response> {
    var data := Text.Strip(c.data);
    if c.total < 1 || c.total > CHUNK_MAX_PARTS then Err(Failed(400, "bad total"))
    else if c.index < 0 || c.index >= c.total then Err(Failed(400, "bad index"))
    else if |data| > CHUNK_MAX_B64 then Err(Failed(413, "chunk too large"))
    else match Base64.Decoded(data)
      case None => Err(Failed(400, "invalid base64"))
      case Some(bytes) => if bytes == [] then Err(Failed(400, "empty chunk")) else Ok(bytes)
  }

  function UploadId(c: Chunk, drawn: string): string {
    var id := Text.Strip(c.uploadId);
    if id == "" then drawn else id
  }

  predicate GoodId(h: Host, id: string) {
    0 < |id| <= 32 && forall k :: 0 <= k < |id| ==> h.isAlnum(id[k])
  }

  // After the last part: all parts become one file, or the first missing one is reported.
  function Completed(h: Host, s: Server, id: string, total: nat): (Response, Server)
    requires total <= 1000
  {
    var missing := FirstMissing(s.parts, id, total, 0);
    if missing < total then (Missing(missing), s)
    else
      var (r, files) := Saved(h, s.files, Assembled(s.parts, id, total));
      (r, s.(parts := Removed(s.parts, id, total), files := files))
  }

  // What it does with its body.
  function Received(h: Host, s: Server, c: Chunk, drawn: string, now: real): (Response, Server) {
    var id := UploadId(c, drawn);
    match CheckChunk(c)
    case Err(r) => (r, s.(now := now))
    case Ok(data) =>
      if !GoodId(h, id) then (Failed(400, "bad upload_id"), s.(now := now))
      else
        var t := s.(parts := s.parts[PartName(id, c.index) := Part(data, now)], now := now);
        if c.index != c.total - 1 then (More(id), t) else Completed(h, t, id, c.total)
  }

  // ---- which requests are refused ------------------------------------------------------------------------

  predicate IsAlnum(h: Host, id: string) {
    forall c <- id :: h.isAlnum(c)
  }

  // A slice is written exactly when its count and index are in range, its data is base64 of 1 byte up to
  // 614400 characters, and its id is 1 to 32 letters and digits; otherwise nothing is written and the
  // answer is 413 for too much data and 400 for everything else.
  lemma ChunkIsChecked(h: Host, s: Server, c: Chunk, drawn: string, now: real)
    ensures var (r, t) := Received(h, s, c, drawn, now);
      var data := Text.Strip(c.data);
      var id := if Text.Strip(c.uploadId) == "" then drawn else Text.Strip(c.uploadId);
      var inRange := 1 <= c.total <= 64 && 0 <= c.index < c.total;
      var fits := |data| <= 614400;
      var good := inRange && fits && Base64.Decoded(data).Some? && Base64.Decoded(data).value != []
                  && 1 <= |id| <= 32 && IsAlnum(h, id);
      && (!good ==> t == s.(now := now) && r.Failed? && r.code == if inRange && !fits then 413 else 400)
      && (good && c.index < c.total - 1 ==>
            r == More(id) && t == s.(parts := s.parts[PartName(id, c.index) := Part(Base64.Decoded(data).value, now)],
                                     now := now))
  {
    hide Text.Strip, Base64.Decoded, PartName, Completed;
    GoodIdIs(h, UploadId(c, drawn));
  }

  lemma GoodIdIs(h: Host, id: string)
    ensures GoodId(h, id) <==> 1 <= |id| <= 32 && IsAlnum(h, id)
  {
    forall k | 0 <= k < |id| ensures id[k] in id {
    }
  }

  // Files of 1 byte to 20 MB are stored, each under its digest; what is there already stays.
  lemma SavedIs(h: Host, files: map<string, seq<byte>>, data: seq<byte>)
    ensures var (r, after) := Saved(h, files, data);
      if 1 <= |data| <= 20971520 then
        && r == Done(h.digest(data), |data|) && after.Keys == files.Keys + {h.digest(data)}
        && (forall sha <- files :: after[sha] == files[sha])
        && (h.digest(data) !in files ==> after[h.digest(data)] == data)
      else after == files && r.Failed? && r.code == if data == [] then 400 else 413
  {
  }

  // ---- the server in place -------------------------------------------------------------------------

  class BlossomServer {
    var parts: map<string, Part>
    var files: map<string, seq<byte>>
    ghost var now: real
    ghost var swept: real

    ghost function Value(): Server
      reads this
    {
      Server(parts, files, now, swept)
    }

    constructor ()
      ensures Value() == Server(map[], map[], 0.0, 0.0)
    {
      parts, files, now, swept := map[], map[], 0.0, 0.0;
    }

    method CleanupStale(at: real)
      modifies this
      ensures Value() == Swept(old(Value()), at)
    {
      var names := parts.Keys;
      ghost var before := parts;
      now, swept := at, at;
      while names != {}
        invariant names <= before.Keys && files == old(files) && now == at == swept
        invariant parts.Keys <= before.Keys && forall name <- parts :: parts[name] == before[name]
        invariant forall name <- before :: name in parts <==> name in names || at - before[name].mtime <= STALE_AGE
        decreases |names|
      {
        var name :| name in names;
        if at - parts[name].mtime > STALE_AGE {
          parts := parts - {name};
        }
        names := names - {name};
      }
      assert parts == Fresh(before, at);
    }

    method Save(h: Host, data: seq<byte>) returns (r: Response)
      modifies this`files
      ensures (r, files) == Saved(h, old(files), data)
    {
      if |data| > MAX_UPLOAD {
        return Failed(413, "file too large");
      }
      if data == [] {
        return Failed(400, "empty upload");
      }
      var sha := h.digest(data);
      if sha !in files {
        files := files[sha := data];
      }
      return Done(sha, |data|);
    }

    // The request from the moment its body has been read.
    method UploadChunk(h: Host, c: Chunk, drawn: string, at: real) returns (r: Response)
      modifies this
      ensures (r, Value()) == Received(h, old(Value()), c, drawn, at)
    {
      hide Text.Strip, Base64.Decoded;
      now := at;
      var checked := CheckChunk(c);
      if checked.Err? {
        return checked.error;
      }
      var id := UploadId(c, drawn);
      if !GoodId(h, id) {
        return Failed(400, "bad upload_id");
      }
      parts := parts[PartName(id, c.index) := Part(checked.value, at)];
      if c.index != c.total - 1 {
        return More(id);
      }
      var full := [];
      var i := 0;
      while i < c.total
        invariant 0 <= i <= c.total && forall k :: 0 <= k < i ==> PartName(id, k) in parts
        invariant FirstMissing(parts, id, c.total, 0) == FirstMissing(parts, id, c.total, i)
        invariant full == Assembled(parts, id, i)
      {
        var name := PartName(id, i);
        if name !in parts {
          return Missing(i);
        }
        full := full + parts[name].data;
        i := i + 1;
      }
      RemoveParts(id, c.total);
      r := Save(h, full);
    }

    method RemoveParts(id: string, total: nat)
      requires total <= 1000
      modifies this`parts
      ensures parts == Removed(old(parts), id, total)
    {
      ghost var before := parts;
      for i := 0 to total
        invariant parts == Removed(before, id, i)
      {
        parts := parts - {PartName(id, i)};
      }
    }
  }
}
