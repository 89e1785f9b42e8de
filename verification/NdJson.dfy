/** Newline-delimited log files: what the rotator keeps of one file, and of a directory of files
    written one after the other into a single blob. */
module NdJson {
  import opened Text

  /** bufio.Scanner gives up on a line that does not fit its buffer together with the newline. */
  const MAX_LINE: nat := 5 * 1024 * 1024

  predicate Scannable(data: string) {
    var raw := Split(data, '\n');
    forall i :: 0 <= i < |raw| ==> |raw[i]| < MAX_LINE
  }

  /** The lines of `raw` that are kept: trimmed, blank ones dropped. */
  function Kept(raw: seq<string>): seq<string> {
    if raw == [] then []
    else
      var line := Trim(raw[0]);
      if line == "" then Kept(raw[1..]) else [line] + Kept(raw[1..])
  }

  /** The normalised line sequence of a file.  Splitting at newlines also yields the empty text after
      a final newline, and leaves the carriage return bufio strips; both vanish under TrimSpace. */
  function Lines(data: string): seq<string> {
    Kept(Split(data, '\n'))
  }

  /** Each line followed by one newline, as written to the blob. */
  function Render(lines: seq<string>): string {
    if lines == [] then "" else lines[0] + "\n" + Render(lines[1..])
  }

  predicate CleanLine(line: string) {
    line != "" && Trimmed(line) && '\n' !in line
  }

  lemma Associative<T>(a: seq<T>, b: seq<T>, c: seq<T>)
    ensures a + b + c == a + (b + c)
  {
  }

  lemma {:induction false} KeptAppend(a: seq<string>, b: seq<string>)
    ensures Kept(a + b) == Kept(a) + Kept(b)
  {
    if a == [] {
      assert a + b == b;
    } else {
      assert (a + b)[1..] == a[1..] + b;
      KeptAppend(a[1..], b);
    }
  }

  lemma {:induction false} RenderAppend(a: seq<string>, b: seq<string>)
    ensures Render(a + b) == Render(a) + Render(b)
  {
    if a == [] {
      assert a + b == b;
    } else {
      assert (a + b)[1..] == a[1..] + b;
      RenderAppend(a[1..], b);
      assert a[0] + "\n" + (Render(a[1..]) + Render(b)) == a[0] + "\n" + Render(a[1..]) + Render(b);
    }
  }

  lemma {:induction false} KeptAreClean(raw: seq<string>)
    requires forall line :: line in raw ==> '\n' !in line
    ensures forall line :: line in Kept(raw) ==> CleanLine(line)
  {
    if raw == [] {
    } else {
      assert raw[0] in raw;
      var left, right := TrimSplits(raw[0]);
      assert forall c :: c in Trim(raw[0]) ==> c in raw[0];
      KeptAreClean(raw[1..]);
    }
  }

  /** Every kept line is non-blank, trimmed and free of newlines. */
  lemma LinesAreClean(data: string)
    ensures forall line :: line in Lines(data) ==> CleanLine(line)
  {
    JoinSplit(data, '\n');
    KeptAreClean(Split(data, '\n'));
  }

  lemma KeptHead(line: string, raw: seq<string>)
    requires CleanLine(line)
    ensures Kept([line] + raw) == [line] + Kept(raw)
  {
  }

  lemma LinesHead(line: string, tail: string)
    requires CleanLine(line)
    ensures Lines(line + "\n" + tail) == [line] + Lines(tail)
  {
    SplitHead(line, '\n', tail);
    KeptHead(line, Split(tail, '\n'));
  }

  /** Reading back what was rendered gives the same lines, and text that follows is read on its own:
      nothing runs together at the seam. */
  lemma {:induction false} LinesOfRender(lines: seq<string>, rest: string)
    requires forall line :: line in lines ==> CleanLine(line)
    ensures Lines(Render(lines) + rest) == lines + Lines(rest)
  {
    if lines == [] {
      assert Render(lines) + rest == rest;
    } else {
      var line, others := lines[0], lines[1..];
      assert lines == [line] + others;
      calc {
        Lines(Render(lines) + rest);
        { Associative(line + "\n", Render(others), rest); }
        Lines(line + "\n" + (Render(others) + rest));
        { LinesHead(line, Render(others) + rest); }
        [line] + Lines(Render(others) + rest);
        { LinesOfRender(others, rest); }
        [line] + (others + Lines(rest));
        { Associative([line], others, Lines(rest)); }
        lines + Lines(rest);
      }
    }
  }

  lemma LinesOfNothing()
    ensures Lines("") == []
  {
  }

  /** Normalising is idempotent: a rendered file is its own normal form. */
  lemma NormaliseIdempotent(data: string)
    ensures Lines(Render(Lines(data))) == Lines(data)
  {
    var lines := Lines(data);
    LinesAreClean(data);
    LinesOfRender(lines, "");
    LinesOfNothing();
    assert Render(lines) + "" == Render(lines);
  }

  // ----- Several files in one blob -----

  function Combined(files: seq<string>): string {
    if files == [] then "" else Render(Lines(files[0])) + Combined(files[1..])
  }

  function Flatten<T>(parts: seq<seq<T>>): seq<T> {
    if parts == [] then [] else parts[0] + Flatten(parts[1..])
  }

  /** The line sequences of the files, one entry a file. */
  function PerFile(files: seq<string>): (parts: seq<seq<string>>)
    ensures |parts| == |files| && forall i :: 0 <= i < |files| ==> parts[i] == Lines(files[i])
  {
    if files == [] then [] else [Lines(files[0])] + PerFile(files[1..])
  }

  lemma {:induction false} CombinedAppend(files: seq<string>, last: string)
    ensures Combined(files + [last]) == Combined(files) + Render(Lines(last))
  {
    if files == [] {
      assert files + [last] == [last];
      assert [last][1..] == [];
    } else {
      assert (files + [last])[1..] == files[1..] + [last];
      CombinedAppend(files[1..], last);
      Associative(Render(Lines(files[0])), Combined(files[1..]), Render(Lines(last)));
    }
  }

  /** Splitting a combined blob yields the concatenation of the files' own lines, even where a file
      does not end in a newline. */
  lemma {:induction false} CombinedLines(files: seq<string>)
    ensures Lines(Combined(files)) == Flatten(PerFile(files))
  {
    if files == [] {
      LinesOfNothing();
    } else {
      LinesAreClean(files[0]);
      LinesOfRender(Lines(files[0]), Combined(files[1..]));
      CombinedLines(files[1..]);
    }
  }

  /** The whole line sequence of `data` stands contiguously in `blob`. */
  ghost predicate Contains(blob: string, data: string) {
    exists before, after :: Lines(blob) == before + Lines(data) + after
  }

  lemma {:induction false} FlattenContains<T>(parts: seq<seq<T>>, i: nat)
    returns (before: seq<T>, after: seq<T>)
    requires i < |parts|
    ensures Flatten(parts) == before + parts[i] + after
  {
    if i == 0 {
      before, after := [], Flatten(parts[1..]);
    } else {
      var b, a := FlattenContains(parts[1..], i - 1);
      before, after := parts[0] + b, a;
    }
  }

  /** Every file written into a blob is in it whole. */
  lemma CombinedContainsEach(files: seq<string>, i: nat)
    requires i < |files|
    ensures Contains(Combined(files), files[i])
  {
    CombinedLines(files);
    var before, after := FlattenContains(PerFile(files), i);
  }
}
