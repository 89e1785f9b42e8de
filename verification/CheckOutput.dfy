/** The text of a GitHub check run, built by Writef and cut to the length GitHub accepts. */
module CheckOutput {
  const MAX: nat := 65536

  /** Two newlines, the bytes of a warning sign, and the words. */
  const TRUNCATED: string := "\n\n\U{e2}\U{9a}\U{a0}\U{ef}\U{b8}\U{8f} _Summary has been truncated_"

  /** What a reader is promised to see when `history` is everything written so far. */
  function Shown(history: string): string {
    if |history| <= MAX then history else history[..MAX - |TRUNCATED|] + TRUNCATED
  }

  /** The buffer after one call of Writef on `md`. */
  function Written(md: string, text: string): string {
    Shown(if |md| <= MAX then md + text + "\n" else md)
  }

  class Builder {
    var md: string

    constructor ()
      ensures md == ""
    {
      md := "";
    }

    /** Writef, with its format and arguments already put together as `text`. */
    method Writef(text: string)
      modifies this
      ensures md == Written(old(md), text)
    {
      if |md| <= MAX {
        md := md + text;
        md := md + "\n";
      }
      if |md| > MAX {
        var out := md;
        out := out[..MAX - |TRUNCATED|];
        out := out + TRUNCATED;
        md := "";
        md := md + out;
      }
    }
  }

  function AllWritten(md: string, texts: seq<string>): string
    decreases |texts|
  {
    if texts == [] then md else AllWritten(Written(md, texts[0]), texts[1..])
  }

  /** Every call's text, each followed by a newline. */
  function History(texts: seq<string>): string {
    if texts == [] then "" else texts[0] + "\n" + History(texts[1..])
  }

  /** Cutting what was already cut loses nothing more: a bounded buffer can stand for the whole history. */
  lemma ShownAppend(history: string, more: string)
    ensures Shown(Shown(history) + more) == Shown(history + more)
    ensures |Shown(history)| <= MAX
    ensures |history| > MAX ==> Shown(history + more) == Shown(history)
    ensures Shown(history) == history <==> |history| <= MAX
  {
    if |history| > MAX {
      var keep := MAX - |TRUNCATED|;
      assert |Shown(history)| == MAX;
      assert (history + more)[..keep] == history[..keep];
      assert (Shown(history) + more)[..keep] == history[..keep];
      if more == "" {
        assert Shown(history) + more == Shown(history);
      }
    }
  }

  /** One call moves the text shown for a history to the text shown for the longer history. */
  lemma WrittenShows(history: string, text: string)
    ensures Written(Shown(history), text) == Shown(history + (text + "\n"))
  {
    ShownAppend(history, text + "\n");
    assert Shown(history) + text + "\n" == Shown(history) + (text + "\n");
  }

  lemma {:induction false} AllWrittenShows(history: string, texts: seq<string>)
    ensures AllWritten(Shown(history), texts) == Shown(history + History(texts))
    decreases |texts|
  {
    if texts == [] {
      assert history + History(texts) == history;
    } else {
      var line := texts[0] + "\n";
      WrittenShows(history, texts[0]);
      AllWrittenShows(history + line, texts[1..]);
      assert (history + line) + History(texts[1..]) == history + (line + History(texts[1..]));
    }
  }

  /** After any run of calls on a new builder the text is a function of what was written: all of it while
      that fits, and otherwise its beginning and the note; never more than the limit. */
  lemma RunShowsHistory(texts: seq<string>)
    ensures AllWritten([], texts) == Shown(History(texts))
    ensures var history, text, keep := History(texts), AllWritten([], texts), 65536 - |TRUNCATED|;
            if |history| <= 65536 then text == history
            else |text| == 65536 && text[..keep] == history[..keep] && text[keep..] == TRUNCATED
  {
    var none: string := [];
    AllWrittenShows(none, texts);
    assert none + History(texts) == History(texts);
    ShownAppend(History(texts), none);
  }

  lemma {:induction false} HistoryAppend(texts: seq<string>, more: seq<string>)
    ensures History(texts + more) == History(texts) + History(more)
  {
    if texts == [] {
      assert texts + more == more;
    } else {
      HistoryAppend(texts[1..], more);
      assert (texts + more)[1..] == texts[1..] + more;
    }
  }

  /** Once the text has been cut, no later run of calls changes it. */
  lemma CutTextIsFinal(texts: seq<string>, more: seq<string>)
    requires |History(texts)| > MAX
    ensures AllWritten([], texts + more) == AllWritten([], texts)
  {
    RunShowsHistory(texts);
    RunShowsHistory(texts + more);
    HistoryAppend(texts, more);
    ShownAppend(History(texts), History(more));
  }
}
