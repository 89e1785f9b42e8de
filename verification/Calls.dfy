/** The calls that the recorder and the rotator make into the file system and the bucket.  Each may fail, and
    whether it does is not theirs to say: the host answers, and keeps a log. */
module Calls {
  import opened Paths

  datatype Op =
    | OpenBucket
    | WalkEntry(path: FilePath)
    | NewWriter(path: FilePath)
    | OpenFile(path: FilePath)
    | ReadFile(path: FilePath)
    | CloseFile(path: FilePath)
    | WriteBlob(path: FilePath)
    | CloseBlob(path: FilePath)
    | Remove(path: FilePath)
    | MkdirAll(dir: string)
    | WriteFile(path: FilePath)
    | RemoveAll(path: FilePath)

  datatype Call = Call(op: Op, ok: bool)

  class Host {
    const answers: (nat, Op) -> bool
    var log: seq<Call>

    /** Every logged outcome is the host's own. */
    ghost predicate Valid()
      reads this
    {
      forall i :: 0 <= i < |log| ==> log[i].ok == answers(i, log[i].op)
    }

    constructor (answers: (nat, Op) -> bool)
      ensures Valid() && this.answers == answers && log == []
    {
      this.answers := answers;
      log := [];
    }

    method Ask(op: Op) returns (ok: bool)
      requires Valid()
      modifies this
      ensures Valid() && log == old(log) + [Call(op, ok)] && ok == answers(|old(log)|, op)
    {
      ok := answers(|log|, op);
      log := log + [Call(op, ok)];
    }
  }

  ghost predicate AllOk(calls: seq<Call>) {
    forall i :: 0 <= i < |calls| ==> calls[i].ok
  }

  /** No call failed, except for closing blobs. */
  ghost predicate OnlyClosesFail(calls: seq<Call>) {
    forall i :: 0 <= i < |calls| ==> calls[i].ok || calls[i].op.CloseBlob?
  }

  ghost predicate ClosesNoBlob(calls: seq<Call>) {
    forall i :: 0 <= i < |calls| ==> !calls[i].op.CloseBlob?
  }

  /** The outcomes of closing this blob, in order. */
  function Closes(calls: seq<Call>, blob: FilePath): seq<bool> {
    if calls == [] then []
    else
      var last := calls[|calls| - 1];
      Closes(calls[..|calls| - 1], blob) + if last.op == CloseBlob(blob) then [last.ok] else []
  }

  lemma {:induction false} ClosesAppend(a: seq<Call>, b: seq<Call>, blob: FilePath)
    ensures Closes(a + b, blob) == Closes(a, blob) + Closes(b, blob)
    decreases |b|
  {
    if b == [] {
      assert a + b == a;
    } else {
      var init := b[..|b| - 1];
      assert (a + b)[..|a + b| - 1] == a + init;
      ClosesAppend(a, init, blob);
    }
  }

  lemma {:induction false} ClosesNothing(calls: seq<Call>, blob: FilePath)
    requires ClosesNoBlob(calls)
    ensures Closes(calls, blob) == []
  {
    if calls == [] {
    } else {
      ClosesNothing(calls[..|calls| - 1], blob);
    }
  }

  lemma LogGrows(log: seq<Call>, a: seq<Call>, b: seq<Call>)
    ensures log + a + b == log + (a + b)
  {
  }

  lemma AllOkAppend(a: seq<Call>, b: seq<Call>)
    ensures AllOk(a + b) <==> AllOk(a) && AllOk(b)
    ensures OnlyClosesFail(a + b) <==> OnlyClosesFail(a) && OnlyClosesFail(b)
    ensures ClosesNoBlob(a + b) <==> ClosesNoBlob(a) && ClosesNoBlob(b)
  {
    assert forall i :: 0 <= i < |a| ==> (a + b)[i] == a[i];
    assert forall i :: 0 <= i < |b| ==> (a + b)[|a| + i] == b[i];
  }

  lemma OneCall(call: Call)
    ensures AllOk([call]) <==> call.ok
    ensures OnlyClosesFail([call]) <==> call.ok || call.op.CloseBlob?
    ensures ClosesNoBlob([call]) <==> !call.op.CloseBlob?
  {
    assert [call][0] == call;
  }

  lemma OneMoreCall(calls: seq<Call>, call: Call)
    ensures AllOk(calls + [call]) <==> AllOk(calls) && call.ok
    ensures OnlyClosesFail(calls + [call]) <==> OnlyClosesFail(calls) && (call.ok || call.op.CloseBlob?)
    ensures ClosesNoBlob(calls + [call]) <==> ClosesNoBlob(calls) && !call.op.CloseBlob?
  {
    AllOkAppend(calls, [call]);
    OneCall(call);
  }

  /** No other blob was closed, and this one with these outcomes. */
  ghost predicate ClosesOnly(calls: seq<Call>, blob: FilePath, closes: seq<bool>) {
    Closes(calls, blob) == closes && forall other: FilePath :: other != blob ==> Closes(calls, other) == []
  }

  lemma NoCloses(calls: seq<Call>, blob: FilePath)
    requires ClosesNoBlob(calls)
    ensures ClosesOnly(calls, blob, [])
  {
    forall other: FilePath
      ensures Closes(calls, other) == []
    {
      ClosesNothing(calls, other);
    }
  }

  lemma OneClose(blob: FilePath, closed: bool)
    ensures ClosesOnly([Call(CloseBlob(blob), closed)], blob, [closed])
  {
    var call := Call(CloseBlob(blob), closed);
    assert [call][..0] == [];
    assert forall other: FilePath ::
        Closes([call], other) == Closes([], other) + if other == blob then [closed] else [];
  }

  lemma MoreCloses(a: seq<Call>, b: seq<Call>, blob: FilePath, before: seq<bool>, more: seq<bool>)
    requires ClosesOnly(a, blob, before) && ClosesOnly(b, blob, more)
    ensures ClosesOnly(a + b, blob, before + more)
  {
    forall other: FilePath
      ensures Closes(a + b, other) == Closes(a, other) + Closes(b, other)
    {
      ClosesAppend(a, b, other);
    }
  }

  /** The blob was closed, at the latest at the third attempt. */
  predicate Closed(closes: seq<bool>) {
    closes == [true] || closes == [false, true] || closes == [false, false, true]
  }

  /** Three attempts at closing the blob failed. */
  predicate GaveUp(closes: seq<bool>) {
    closes == [false, false, false]
  }
}
