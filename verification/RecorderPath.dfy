/** Where the event recorder writes an event: an injective encoding of type and ID as path components,
    and the path that the log rotator takes apart again. */
module RecorderPath {
  import opened Options
  import opened Text
  import opened Hex
  import opened Calls
  import opened Paths
  import opened LogRotate

  predicate IsWordByte(c: char) {
    'A' <= c <= 'Z' || 'a' <= c <= 'z' || '0' <= c <= '9' || c == '_' || c == '-'
  }

  /** The bytes written for `c`; a dot is kept except at the front. */
  function EncodeByte(c: Byte, leading: bool): string {
    if IsWordByte(c) || (c == '.' && !leading) then [c] else Escape(c)
  }

  function EncodeFrom(s: seq<Byte>, leading: bool): string {
    if s == [] then "" else EncodeByte(s[0], leading) + EncodeFrom(s[1..], false)
  }

  function Encode(s: seq<Byte>): string {
    EncodeFrom(s, true)
  }

  function Decode(t: string): string {
    if t == "" then ""
    else if IsEscape(t) then [Unescape(t)] + Decode(t[3..])
    else [t[0]] + Decode(t[1..])
  }

  lemma {:induction false} EncodeAppend(s: seq<Byte>, c: Byte, leading: bool)
    ensures EncodeFrom(s + [c], leading) ==
            EncodeFrom(s, leading) + EncodeByte(c, leading && s == [])
  {
    if s == [] {
      assert (s + [c])[1..] == [];
    } else {
      assert (s + [c])[1..] == s[1..] + [c];
      EncodeAppend(s[1..], c, false);
    }
  }

  method SanitizePathComponent(s: seq<Byte>) returns (out: Option<string>)
    ensures out == if s == [] then None else Some(Encode(s))
  {
    if s == [] {
      return None;
    }
    var b := "";
    for i := 0 to |s|
      invariant b == Encode(s[..i])
    {
      var c := s[i];
      assert s[..i + 1] == s[..i] + [c];
      EncodeAppend(s[..i], c, true);
      if 'A' <= c <= 'Z' || 'a' <= c <= 'z' || '0' <= c <= '9' || c == '_' || c == '-' {
        b := b + [c];
      } else if c == '.' {
        if i == 0 {
          b := b + Escape('.');
        } else {
          b := b + [c];
        }
      } else {
        b := b + Escape(c);
      }
    }
    assert s[..|s|] == s;
    return Some(b);
  }

  // ----- The encoding loses nothing -----

  lemma {:induction false} DecodeEncodeFrom(s: seq<Byte>, leading: bool)
    ensures Decode(EncodeFrom(s, leading)) == s
  {
    if s == [] {
    } else {
      var c, rest := s[0], EncodeFrom(s[1..], false);
      var t := EncodeByte(c, leading) + rest;
      DecodeEncodeFrom(s[1..], false);
      if |EncodeByte(c, leading)| == 1 {
        assert !IsEscape(t) && t[1..] == rest;
      } else {
        UnescapeEscape(c);
        assert IsEscape(t) && t[3..] == rest && Unescape(t) == Unescape(Escape(c));
      }
    }
  }

  /** Decoding gives back every byte string. */
  lemma DecodeEncode(s: seq<Byte>)
    ensures Decode(Encode(s)) == s
  {
    DecodeEncodeFrom(s, true);
  }

  /** So two distinct byte strings never share an encoding. */
  lemma EncodeInjective(s: seq<Byte>, t: seq<Byte>)
    requires Encode(s) == Encode(t)
    ensures s == t
  {
    DecodeEncode(s);
    DecodeEncode(t);
  }

  lemma {:induction false} EncodeAlphabet(s: seq<Byte>, leading: bool)
    ensures forall c :: c in EncodeFrom(s, leading) ==> IsWordByte(c) || c == '.' || c == '%'
    ensures |s| <= |EncodeFrom(s, leading)| <= 3 * |s|
  {
    if s == [] {
    } else {
      UnescapeEscape(s[0]);
      EncodeAlphabet(s[1..], false);
    }
  }

  /** What is written is one plain, visible path component. */
  lemma EncodeIsPlain(s: seq<Byte>)
    requires s != []
    ensures Plain(Encode(s)) && Encode(s)[0] != '.'
  {
    EncodeAlphabet(s, true);
    assert Encode(s)[0] == EncodeByte(s[0], true)[0];
  }

  /** A component is left as it is exactly when every byte of it is safe and it is not dot-led. */
  lemma {:induction false} EncodeKeepsIff(s: seq<Byte>, leading: bool)
    ensures EncodeFrom(s, leading) == s <==>
            (forall i :: 0 <= i < |s| ==> IsWordByte(s[i]) || (s[i] == '.' && !(leading && i == 0)))
  {
    if s == [] {
    } else {
      var c, tail := s[0], s[1..];
      EncodeKeepsIff(tail, false);
      EncodeAlphabet(tail, false);
      var t := EncodeFrom(s, leading);
      if |EncodeByte(c, leading)| == 1 {
        assert t[1..] == EncodeFrom(tail, false) && s == [c] + tail;
        assert forall i :: 0 < i < |s| ==> s[i] == tail[i - 1];
        assert forall i :: 0 <= i < |tail| ==> tail[i] == s[i + 1];
      } else {
        assert |t| > |s|;
      }
    }
  }

  // ----- The path of an event -----

  /** The calendar date in 2006-01-02 layout. */
  predicate IsDate(date: string) {
    date != "" && forall c :: c in date ==> '0' <= c <= '9' || c == '-'
  }

  function EventComponents(kind: seq<Byte>, date: string, id: seq<Byte>): seq<string> {
    [Encode(kind), date, Encode(id)]
  }

  /** The file of an event relative to the log path. */
  function EventFile(kind: seq<Byte>, date: string, id: seq<Byte>): FilePath {
    FilePath(Encode(kind) + "/" + date + "/", Encode(id))
  }

  /** The name recordEvent writes to. */
  function EventPath(logPath: string, kind: seq<Byte>, date: string, id: seq<Byte>): string {
    JoinPath(JoinPath(logPath, [Encode(kind), date]), [Encode(id)])
  }

  /** Whatever the event says, and wherever the log path points, the file lies exactly three levels below it;
      and the rotator's Rel and Split recover type and date as the directory and the ID as the name. */
  lemma EventPathRoundTrip(logPath: string, kind: seq<Byte>, date: string, id: seq<Byte>)
    requires logPath != "" && kind != [] && IsDate(date) && id != []
    ensures var path := EventPath(logPath, kind, date, id);
            && Clean(path) == path
            && Components(path) == Components(logPath) + EventComponents(kind, date, id)
            && SplitPath(Rel(logPath, path)) == EventFile(kind, date, id)
  {
    var k, d, i := Encode(kind), date, Encode(id);
    EncodeIsPlain(kind);
    EncodeIsPlain(id);
    assert d[0] in d && Plain(d);
    JoinPlain(logPath, [k, d]);
    JoinPlain(JoinPath(logPath, [k, d]), [i]);
    var root := Components(logPath);
    assert root + [k, d] + [i] == root + [k, d, i];
    assert (root + [k, d, i])[|root|..] == [k, d, i];
    assert Join([k, d, i], '/') == (k + "/" + d + "/") + i by {
      assert [k, d, i][1..] == [d, i] && [d, i][1..] == [i];
    }
    SplitPathUnique(k + "/" + d + "/", i);
  }

  lemma FirstSlashUnique(a: string, b: string, s: string, t: string)
    requires '/' !in a && '/' !in b && a + "/" + s == b + "/" + t
    ensures a == b && s == t
  {
    SplitHead(a, '/', s);
    SplitHead(b, '/', t);
    assert a == (Split(a + ['/'] + s, '/'))[0] == (Split(b + ['/'] + t, '/'))[0] == b;
    assert s == (a + "/" + s)[|a| + 1..];
    assert t == (b + "/" + t)[|b| + 1..];
  }

  /** Distinct events, by type, date and ID, are written to distinct files. */
  lemma EventFileInjective(
    kind: seq<Byte>, date: string, id: seq<Byte>, kind': seq<Byte>, date': string, id': seq<Byte>)
    requires kind != [] && kind' != [] && IsDate(date) && IsDate(date')
    requires EventFile(kind, date, id) == EventFile(kind', date', id')
    ensures kind == kind' && date == date' && id == id'
  {
    EncodeIsPlain(kind);
    EncodeIsPlain(kind');
    assert Encode(kind) + "/" + date + "/" == Encode(kind) + "/" + (date + "/" + "");
    assert Encode(kind') + "/" + date' + "/" == Encode(kind') + "/" + (date' + "/" + "");
    FirstSlashUnique(Encode(kind), Encode(kind'), date + "/" + "", date' + "/" + "");
    FirstSlashUnique(date, date', "", "");
    EncodeInjective(kind, kind');
    EncodeInjective(id, id');
  }

  // ----- recordEvent -----

  /** What one call of recordEvent does to the event's file: it is written whole; left alone; removed; or left
      holding a beginning of the data (all of it, if only closing the file failed). */
  datatype Outcome = Done | Unchanged | Gone | Partial(part: string)

  function AfterAttempt(disk: Disk, file: FilePath, data: string, outcome: Outcome): Disk {
    match outcome
    case Done => disk[file := Regular(data)]
    case Unchanged => disk
    case Gone => disk - {file}
    case Partial(part) => disk[file := Regular(part)]
  }

  /** The calls of one attempt, and what they decide about the file: only a failed call keeps it from being
      written, and after a failed write it is gone unless removing it fails too. */
  predicate Attempted(calls: seq<Call>, file: FilePath, outcome: Outcome) {
    match outcome
    case Done => calls == [Call(MkdirAll(file.dir), true), Call(WriteFile(file), true)]
    case Gone => calls == [Call(MkdirAll(file.dir), true), Call(WriteFile(file), false), Call(RemoveAll(file), true)]
    case Unchanged => calls == [Call(MkdirAll(file.dir), false)] || NeitherWrittenNorRemoved(calls, file)
    case Partial(_) => NeitherWrittenNorRemoved(calls, file)
  }

  predicate NeitherWrittenNorRemoved(calls: seq<Call>, file: FilePath) {
    calls == [Call(MkdirAll(file.dir), true), Call(WriteFile(file), false), Call(RemoveAll(file), false)]
  }

  class Recorder {
    const host: Host
    var disk: Disk

    constructor (host: Host, disk: Disk)
      ensures this.host == host && this.disk == disk
    {
      this.host, this.disk := host, disk;
    }

    /** Creating the directory, writing the file and removing a half-written file may each fail.  The event is
        acknowledged exactly when its file was written whole, or when it has no type or no ID and is dropped;
        a call that fails may still remove or shorten a file that an earlier call wrote. */
    method RecordEvent(kind: seq<Byte>, date: string, id: seq<Byte>, data: string)
      returns (failed: bool, ghost outcome: Outcome, ghost calls: seq<Call>)
      requires IsDate(date) && host.Valid()
      modifies this, host
      ensures host.Valid() && host.log == old(host.log) + calls
      ensures disk == AfterAttempt(old(disk), EventFile(kind, date, id), data, outcome)
      ensures kind == [] || id == [] ==> !failed && outcome == Unchanged && calls == []
      ensures kind != [] && id != [] ==>
                (!failed <==> outcome == Done) && Attempted(calls, EventFile(kind, date, id), outcome)
      ensures outcome.Partial? ==> outcome.part <= data
    {
      outcome, calls := Unchanged, [];
      var safeKind := SanitizePathComponent(kind);
      if safeKind.None? {
        return false, outcome, calls;
      }
      var safeID := SanitizePathComponent(id);
      if safeID.None? {
        return false, outcome, calls;
      }
      var file := FilePath(safeKind.value + "/" + date + "/", safeID.value);
      var ok := host.Ask(MkdirAll(file.dir));
      calls := [Call(MkdirAll(file.dir), ok)];
      if !ok {
        return true, outcome, calls;
      }
      ok := host.Ask(WriteFile(file));
      LogGrows(old(host.log), calls, [Call(WriteFile(file), ok)]);
      calls := [Call(MkdirAll(file.dir), true), Call(WriteFile(file), ok)];
      if ok {
        disk := disk[file := Regular(data)];
        return false, Done, calls;
      }
      var part: int := *;
      if 0 <= part <= |data| {
        disk := disk[file := Regular(data[..part])];
        outcome := Partial(data[..part]);
      }
      ok := host.Ask(RemoveAll(file));
      LogGrows(old(host.log), calls, [Call(RemoveAll(file), ok)]);
      calls := [Call(MkdirAll(file.dir), true), Call(WriteFile(file), false), Call(RemoveAll(file), ok)];
      if ok {
        disk := disk - {file};
        outcome := Gone;
      }
      return true, outcome, calls;
    }
  }
}
