/** What it means that logs are append-only: every log's statements are numbered 0, 1, 2 and so on. */
module Logs {
  import opened Bits

  datatype Entry = Entry(log: Bytes, index: nat, statement: Bytes)

  /** How many statements of a log have been taken. */
  function Count(es: seq<Entry>, log: Bytes): nat
  {
    if es == [] then 0
    else Count(es[..|es| - 1], log) + (if es[|es| - 1].log == log then 1 else 0)
  }

  /** The entries after one more statement of a log. */
  function More(es: seq<Entry>, log: Bytes, statement: Bytes): seq<Entry>
  {
    es + [Entry(log, Count(es, log), statement)]
  }

  /** Each entry has as its number how many of its log came before it. */
  ghost predicate Numbered(es: seq<Entry>)
  {
    forall i :: 0 <= i < |es| ==> es[i].index == Count(es[..i], es[i].log)
  }

  /** The index kept for a log is that of its last entry. */
  ghost predicate Indexed(es: seq<Entry>, idx: map<Bytes, nat>)
  {
    forall log :: (log in idx <==> Count(es, log) > 0) && (log in idx ==> idx[log] + 1 == Count(es, log))
  }

  /** The dictionary holds the last statement of every log that has any, and nothing else. */
  ghost predicate Holds(es: seq<Entry>, d: map<Bytes, Bytes>)
  {
    && (forall log :: log in d <==> Count(es, log) > 0)
    && (forall i :: 0 <= i < |es| && es[i].index + 1 == Count(es, es[i].log) ==>
          es[i].log in d && d[es[i].log] == es[i].statement)
  }

  ghost predicate Kept(es: seq<Entry>, idx: map<Bytes, nat>, d: map<Bytes, Bytes>)
  {
    Numbered(es) && Indexed(es, idx) && Holds(es, d)
  }

  lemma CountMore(es: seq<Entry>, e: Entry, log: Bytes)
    ensures Count(es + [e], log) == Count(es, log) + if e.log == log then 1 else 0
  {
    assert (es + [e])[..|es|] == es;
  }

  lemma {:induction false} CountPrefix(es: seq<Entry>, i: nat, log: Bytes)
    requires i <= |es|
    ensures Count(es[..i], log) <= Count(es, log)
    ensures i < |es| && es[i].log == log ==> Count(es[..i], log) < Count(es, log)
    decreases |es| - i
  {
    if i == |es| {
      assert es[..i] == es;
    } else {
      assert es[..i + 1][..i] == es[..i];
      CountPrefix(es, i + 1, log);
    }
  }

  /** Taking the next statement of a log. */
  lemma Taken(es: seq<Entry>, idx: map<Bytes, nat>, d: map<Bytes, Bytes>, e: Entry)
    requires Kept(es, idx, d) && e.index == Count(es, e.log)
    ensures Kept(es + [e], idx[e.log := e.index], d[e.log := e.statement])
  {
    hide Count;
    var more := es + [e];
    forall i | 0 <= i < |more|
      ensures more[i].index == Count(more[..i], more[i].log)
    {
      assert more[..i] == es[..i];
      if i < |es| {
        assert more[i] == es[i];
      } else {
        assert es[..i] == es;
      }
    }
    forall log
      ensures Count(more, log) == Count(es, log) + if e.log == log then 1 else 0
    {
      CountMore(es, e, log);
    }
    forall i | 0 <= i < |more| && more[i].index + 1 == Count(more, more[i].log)
      ensures more[i].log in d[e.log := e.statement] && d[e.log := e.statement][more[i].log] == more[i].statement
    {
      if i < |es| {
        assert more[i] == es[i];
        CountPrefix(es, i, es[i].log);
      }
    }
  }

  lemma KeptNone()
    ensures Kept([], map[], map[])
  {
  }

  /** What the index kept for a log says about its next number. */
  lemma NextIs(es: seq<Entry>, idx: map<Bytes, nat>, d: map<Bytes, Bytes>, log: Bytes)
    requires Kept(es, idx, d)
    ensures Count(es, log) == if log in idx then idx[log] + 1 else 0
  {
  }

  /** The numbers of a log are exactly those below its count, each once and in order. */
  lemma InOrder(es: seq<Entry>, i: nat, j: nat)
    requires Numbered(es) && i < j < |es| && es[i].log == es[j].log
    ensures es[i].index < es[j].index < Count(es, es[j].log)
  {
    assert es[..j][..i] == es[..i] && es[..j][i] == es[i];
    CountPrefix(es[..j], i, es[i].log);
    CountPrefix(es, j, es[j].log);
  }

  lemma {:induction false} EveryNumber(es: seq<Entry>, log: Bytes, x: nat)
    requires Numbered(es) && x < Count(es, log)
    ensures exists i :: 0 <= i < |es| && es[i].log == log && es[i].index == x
    decreases |es|
  {
    var n := |es| - 1;
    if es[n].log == log && x == Count(es[..n], log) {
      assert es[n].index == x;
    } else {
      assert forall i :: 0 <= i < n ==> es[..n][i] == es[i] && es[..n][..i] == es[..i];
      EveryNumber(es[..n], log, x);
      var i :| 0 <= i < n && es[..n][i].log == log && es[..n][i].index == x;
      assert es[i].log == log && es[i].index == x;
    }
  }
}
