/** The server's wallet: which outputs it holds, and the transactions it builds from them. */
module Wallet {
  import opened Bits
  import opened Trie
  import opened Records

  datatype Utxo = Utxo(txHash: Digest, outpoint: nat, value: nat, script: Bytes)

  function Key(u: Utxo): OutPoint { OutPoint(u.txHash, u.outpoint) }

  /** Outputs up to this value are left to the miners. */
  const MINOUTPUT := 1000

  // ----- building a transaction -----

  function Total(us: seq<Utxo>): nat
  {
    if us == [] then 0 else Total(us[..|us| - 1]) + us[|us| - 1].value
  }

  function Keys(us: seq<Utxo>): seq<OutPoint>
  {
    if us == [] then [] else Keys(us[..|us| - 1]) + [Key(us[|us| - 1])]
  }

  lemma {:induction false} TotalAppend(us: seq<Utxo>, u: Utxo)
    ensures Total(us + [u]) == Total(us) + u.value && Keys(us + [u]) == Keys(us) + [Key(u)]
  {
    assert (us + [u])[..|us|] == us;
  }

  method Balance(us: seq<Utxo>) returns (value: nat)
    ensures value == Total(us)
  {
    value := 0;
    for i := 0 to |us|
      invariant value == Total(us[..i])
    {
      assert us[..i + 1][..i] == us[..i];
      value := value + us[i].value;
    }
    assert us[..|us|] == us;
  }

  /** The change output of the last commitment. */
  predicate IsChange(u: Utxo, last: Digest) { u.outpoint == 1 && u.txHash == last }

  /** The first `i` of `us` except the one at `k`. */
  function Others(us: seq<Utxo>, k: int, i: nat): seq<Utxo>
    requires -1 <= k < |us| && i <= |us|
  {
    if i == 0 then [] else if i - 1 == k then Others(us, k, i - 1) else Others(us, k, i - 1) + [us[i - 1]]
  }

  /** All of `us`, the one at `k` first if there is one. */
  function Fronted(us: seq<Utxo>, k: int): seq<Utxo>
    requires -1 <= k < |us|
  {
    (if k < 0 then [] else [us[k]]) + Others(us, k, |us|)
  }

  lemma {:induction false} OthersSum(us: seq<Utxo>, k: int, i: nat)
    requires -1 <= k < |us| && i <= |us|
    ensures Total(us[..i]) == Total(Others(us, k, i)) + if 0 <= k < i then us[k].value else 0
    ensures multiset(Keys(us[..i])) ==
            multiset(Keys(Others(us, k, i))) + if 0 <= k < i then multiset{Key(us[k])} else multiset{}
  {
    hide Total, Keys;
    if i == 0 {
      TotalNone();
    } else {
      OthersSum(us, k, i - 1);
      assert us[..i] == us[..i - 1] + [us[i - 1]];
      TotalAppend(us[..i - 1], us[i - 1]);
      TotalAppend(Others(us, k, i - 1), us[i - 1]);
    }
  }

  lemma {:induction false} TotalPrepend(u: Utxo, us: seq<Utxo>)
    ensures Total([u] + us) == u.value + Total(us) && Keys([u] + us) == [Key(u)] + Keys(us)
    decreases |us|
  {
    if us == [] {
      assert [u] + us == [] + [u];
      TotalAppend([], u);
    } else {
      var n := |us| - 1;
      assert us == us[..n] + [us[n]] && [u] + us == ([u] + us[..n]) + [us[n]];
      TotalPrepend(u, us[..n]);
      TotalAppend([u] + us[..n], us[n]);
      TotalAppend(us[..n], us[n]);
    }
  }

  lemma TotalNone()
    ensures Total([]) == 0 && Keys([]) == []
  {
  }

  /** Moving one to the front loses and adds nothing. */
  lemma FrontedSame(us: seq<Utxo>, k: int)
    requires -1 <= k < |us|
    ensures Total(Fronted(us, k)) == Total(us) && multiset(Keys(Fronted(us, k))) == multiset(Keys(us))
    ensures k >= 0 ==> |Keys(Fronted(us, k))| > 0 && Keys(Fronted(us, k))[0] == Key(us[k])
  {
    hide Total, Keys, Others;
    OthersSum(us, k, |us|);
    assert us[..|us|] == us;
    if k >= 0 {
      TotalPrepend(us[k], Others(us, k, |us|));
    } else {
      assert [] + Others(us, k, |us|) == Others(us, k, |us|);
    }
  }

  method FindChange(us: seq<Utxo>, last: Digest) returns (k: int)
    ensures -1 <= k < |us|
    ensures k >= 0 ==> IsChange(us[k], last)
    ensures k < 0 ==> forall i :: 0 <= i < |us| ==> !IsChange(us[i], last)
  {
    for i := 0 to |us|
      invariant forall j :: 0 <= j < i ==> !IsChange(us[j], last)
    {
      if IsChange(us[i], last) {
        return i;
      }
    }
    return -1;
  }

  /** The two loops that line up the inputs: the last commitment's change, then all others in order. */
  method LineUp(us: seq<Utxo>, k: int) returns (r: seq<Utxo>, valueAdded: nat)
    requires -1 <= k < |us|
    ensures r == Fronted(us, k) && valueAdded == Total(us)
  {
    hide Total, Keys;
    TotalNone();
    r, valueAdded := [], 0;
    if k >= 0 {
      TotalAppend(r, us[k]);
      valueAdded, r := valueAdded + us[k].value, r + [us[k]];
    }
    ghost var first := r;
    for i := 0 to |us|
      invariant r == first + Others(us, k, i) && valueAdded == Total(r)
    {
      if i != k {
        TotalAppend(r, us[i]);
        valueAdded, r := valueAdded + us[i].value, r + [us[i]];
      }
    }
    FrontedSame(us, k);
  }

  /** The loop that adds the inputs. */
  method AddInputs(inputs: seq<OutPoint>, line: seq<Utxo>) returns (r: seq<OutPoint>)
    ensures r == inputs + Keys(line)
  {
    hide Keys;
    TotalNone();
    r := inputs;
    for i := 0 to |line|
      invariant r == inputs + Keys(line[..i])
    {
      assert line[..i + 1] == line[..i] + [line[i]];
      TotalAppend(line[..i], line[i]);
      r := r + [Key(line[i])];
    }
    assert line[..|line|] == line;
  }

  lemma SameLength(a: seq<OutPoint>, b: seq<OutPoint>)
    requires multiset(a) == multiset(b)
    ensures |a| == |b|
  {
    assert |a| == |multiset(a)| == |multiset(b)| == |b|;
  }

  /**
   `AddInputsAndChange`. On success every output held is spent exactly once, the last commitment's
   change first where it is held, and what goes in is what was needed plus the change, or exceeds it
   by no more than the smallest output worth making. On failure the transaction is untouched.
   */
  method AddInputsAndChange(us: seq<Utxo>, last: Digest, tx: Tx, needed: nat, myScript: Bytes) returns (r: Option<Tx>)
    ensures r.None? <==> Total(us) < needed
    ensures r.Some? ==>
              && |r.value.inputs| == |tx.inputs| + |Keys(us)| && r.value.inputs[..|tx.inputs|] == tx.inputs
              && multiset(r.value.inputs[|tx.inputs|..]) == multiset(Keys(us))
    ensures r.Some? && (exists i :: 0 <= i < |us| && IsChange(us[i], last)) ==>
              |r.value.inputs| > |tx.inputs| && r.value.inputs[|tx.inputs|] == OutPoint(last, 1)
    ensures r.Some? ==>
              var left := Total(us) - needed;
              r.value.outputs == if left > MINOUTPUT then tx.outputs + [TxOut(left, myScript)] else tx.outputs
  {
    hide Total, Keys, Fronted;
    var k := FindChange(us, last);
    var line, valueAdded := LineUp(us, k);
    FrontedSame(us, k);
    if valueAdded < needed {
      return None;
    }
    var inputs := AddInputs(tx.inputs, line);
    SameLength(Keys(line), Keys(us));
    assert inputs[|tx.inputs|..] == Keys(line);
    var outputs := tx.outputs;
    if valueAdded - needed > MINOUTPUT {
      outputs := outputs + [TxOut(valueAdded - needed, myScript)];
    }
    return Some(Tx(inputs, outputs));
  }

  // ----- following the chain -----

  /** A transaction with its hash. */
  datatype Mined = Mined(id: Digest, tx: Tx)

  /** What the list holds for an outpoint. */
  function Find(us: seq<Utxo>, o: OutPoint): Option<Utxo>
  {
    if us == [] then None else if Key(us[|us| - 1]) == o then Some(us[|us| - 1]) else Find(us[..|us| - 1], o)
  }

  predicate Unique(us: seq<Utxo>)
  {
    forall i, j :: 0 <= i < j < |us| ==> Key(us[i]) != Key(us[j])
  }

  lemma {:induction false} FindIs(us: seq<Utxo>, o: OutPoint)
    ensures Find(us, o).Some? <==> exists i :: 0 <= i < |us| && Key(us[i]) == o
    ensures Find(us, o).Some? ==> exists i :: 0 <= i < |us| && Key(us[i]) == o && Find(us, o) == Some(us[i])
    decreases |us|
  {
    if us != [] {
      var n := |us| - 1;
      FindIs(us[..n], o);
      assert forall i :: 0 <= i < n ==> us[..n][i] == us[i];
      if Key(us[n]) != o && Find(us[..n], o).Some? {
        var i :| 0 <= i < n && Key(us[..n][i]) == o && Find(us[..n], o) == Some(us[..n][i]);
        assert Key(us[i]) == o;
      }
    }
  }

  lemma FindAt(us: seq<Utxo>, i: nat)
    requires Unique(us) && i < |us|
    ensures Find(us, Key(us[i])) == Some(us[i])
  {
    FindIs(us, Key(us[i]));
  }

  /** With unique outpoints, what is found is what is listed. */
  lemma FindOnly(us: seq<Utxo>, o: OutPoint, u: Utxo)
    requires Unique(us)
    ensures Find(us, o) == Some(u) <==> u in us && Key(u) == o
  {
    FindIs(us, o);
    if u in us && Key(u) == o {
      var i :| 0 <= i < |us| && us[i] == u;
      FindAt(us, i);
    }
  }

  /** What one transaction does to one outpoint: spent, or created for us, or left alone. */
  function Effect(mine: Bytes -> bool, t: Mined, o: OutPoint, was: Option<Utxo>): Option<Utxo>
  {
    if o in t.tx.inputs then None else if Creates(mine, t, o) then Some(OutputAt(t, o.index)) else was
  }

  predicate Creates(mine: Bytes -> bool, t: Mined, o: OutPoint)
  {
    o.hash == t.id && o.index < |t.tx.outputs| && mine(t.tx.outputs[o.index].script)
  }

  function OutputAt(t: Mined, i: nat): Utxo
    requires i < |t.tx.outputs|
  {
    Utxo(t.id, i, t.tx.outputs[i].value, t.tx.outputs[i].script)
  }

  /** What a sequence of transactions leaves of one outpoint. */
  function After(mine: Bytes -> bool, ts: seq<Mined>, o: OutPoint, was: Option<Utxo>): Option<Utxo>
  {
    if ts == [] then was else Effect(mine, ts[|ts| - 1], o, After(mine, ts[..|ts| - 1], o, was))
  }

  /** Transaction hashes differ, and an output is spent only by later transactions than the one creating it. */
  ghost predicate Causal(ts: seq<Mined>)
  {
    && (forall i, j :: 0 <= i < j < |ts| ==> ts[i].id != ts[j].id)
    && (forall i, j, o :: 0 <= i <= j < |ts| && o in ts[i].tx.inputs ==> o.hash != ts[j].id)
  }

  predicate Spends(t: Mined, o: OutPoint) { o in t.tx.inputs }

  lemma CausalFront(ts: seq<Mined>)
    requires Causal(ts) && ts != []
    ensures Causal(ts[..|ts| - 1])
  {
  }

  /** Once anything spends an outpoint, nothing is left of it. */
  lemma {:induction false} SpentIsGone(mine: Bytes -> bool, ts: seq<Mined>, i: nat, o: OutPoint, was: Option<Utxo>)
    requires Causal(ts) && i < |ts| && Spends(ts[i], o)
    ensures After(mine, ts, o, was) == None
    decreases |ts|
  {
    var n := |ts| - 1;
    if i < n {
      CausalFront(ts);
      assert ts[..n][i] == ts[i];
      SpentIsGone(mine, ts[..n], i, o, was);
      assert o in ts[i].tx.inputs && o.hash != ts[n].id;
    }
  }

  /** A created output that nothing spends stays. */
  lemma {:induction false} CreatedStays(mine: Bytes -> bool, ts: seq<Mined>, i: nat, o: OutPoint, was: Option<Utxo>)
    requires Causal(ts) && i < |ts| && Creates(mine, ts[i], o) && forall j :: 0 <= j < |ts| ==> !Spends(ts[j], o)
    ensures After(mine, ts, o, was) == Some(OutputAt(ts[i], o.index))
    decreases |ts|
  {
    var n := |ts| - 1;
    assert !Spends(ts[n], o);
    if i < n {
      CausalFront(ts);
      assert forall j :: 0 <= j < n ==> ts[..n][j] == ts[j];
      CreatedStays(mine, ts[..n], i, o, was);
      assert ts[i].id != ts[n].id;
    }
  }

  lemma {:induction false} UntouchedStays(mine: Bytes -> bool, ts: seq<Mined>, o: OutPoint, was: Option<Utxo>)
    requires forall j :: 0 <= j < |ts| ==> !Spends(ts[j], o) && !Creates(mine, ts[j], o)
    ensures After(mine, ts, o, was) == was
    decreases |ts|
  {
    if ts != [] {
      var n := |ts| - 1;
      assert forall j :: 0 <= j < n ==> ts[..n][j] == ts[j];
      UntouchedStays(mine, ts[..n], o, was);
      assert !Spends(ts[n], o) && !Creates(mine, ts[n], o);
    }
  }

  /** Transaction `i` makes the output for us; neither it nor a later one spends it, and no later one makes it. */
  ghost predicate LastMade(mine: Bytes -> bool, ts: seq<Mined>, i: int, o: OutPoint)
  {
    && 0 <= i < |ts| && Creates(mine, ts[i], o)
    && (forall j :: i <= j < |ts| ==> !Spends(ts[j], o))
    && (forall j :: i < j < |ts| ==> !Creates(mine, ts[j], o))
  }

  /** Of transactions in any order, an output is held if and only if one made it and it was not spent since. */
  lemma {:induction false} HeldIff(mine: Bytes -> bool, ts: seq<Mined>, o: OutPoint, u: Utxo)
    ensures After(mine, ts, o, None) == Some(u) <==>
            exists i :: LastMade(mine, ts, i, o) && u == OutputAt(ts[i], o.index)
    decreases |ts|
  {
    if ts != [] {
      var n := |ts| - 1;
      var front := ts[..n];
      HeldIff(mine, front, o, u);
      assert forall j :: 0 <= j < n ==> front[j] == ts[j];
      if Spends(ts[n], o) {
        assert forall i :: !LastMade(mine, ts, i, o);
      } else if Creates(mine, ts[n], o) {
        assert LastMade(mine, ts, n, o);
      } else {
        assert forall i :: LastMade(mine, ts, i, o) <==> LastMade(mine, front, i, o);
      }
    }
  }

  lemma CausalSuffix(ts: seq<Mined>, k: nat)
    requires Causal(ts) && k <= |ts|
    ensures Causal(ts[k..])
  {
    assert forall i :: 0 <= i < |ts| - k ==> ts[k..][i] == ts[k + i];
  }

  /** Processing any suffix of the processed transactions again changes nothing. */
  lemma Replay(mine: Bytes -> bool, ts: seq<Mined>, k: nat, o: OutPoint, was: Option<Utxo>)
    requires Causal(ts) && k <= |ts|
    ensures After(mine, ts[k..], o, After(mine, ts, o, was)) == After(mine, ts, o, was)
  {
    hide After;
    var end := After(mine, ts, o, was);
    var tail := ts[k..];
    CausalSuffix(ts, k);
    assert forall i :: 0 <= i < |tail| ==> tail[i] == ts[k + i];
    if i :| 0 <= i < |tail| && Spends(tail[i], o) {
      SpentIsGone(mine, tail, i, o, end);
      SpentIsGone(mine, ts, k + i, o, was);
    } else if i :| 0 <= i < |tail| && Creates(mine, tail[i], o) {
      forall j | 0 <= j < |ts|
        ensures !Spends(ts[j], o)
      {
        assert j >= k ==> ts[j] == tail[j - k];
        assert o.hash == ts[k + i].id;
      }
      CreatedStays(mine, tail, i, o, end);
      CreatedStays(mine, ts, k + i, o, was);
    } else {
      UntouchedStays(mine, tail, o, end);
    }
  }

  // ----- commitment after commitment -----

  const FEE := 1000

  predicate HoldsChange(us: seq<Utxo>, last: Digest)
  {
    exists i :: 0 <= i < |us| && IsChange(us[i], last)
  }

  /** A transaction that carries `c`, spends all of `us`, the last commitment's change first, and returns the rest. */
  ghost predicate IsCommit(us: seq<Utxo>, last: Digest, c: Digest, myScript: Bytes, tx: Tx)
  {
    && Carries(tx, c) && tx.outputs[0].value == 0
    && multiset(tx.inputs) == multiset(Keys(us))
    && (HoldsChange(us, last) ==> |tx.inputs| > 0 && tx.inputs[0] == OutPoint(last, 1))
    && (if Total(us) > FEE + MINOUTPUT then |tx.outputs| == 2 && tx.outputs[1] == TxOut(Total(us) - FEE, myScript)
        else |tx.outputs| == 1)
  }

  /** In satoshi, with a fee of 1000: 2000 leave no change, 2001 leave 1001. */
  lemma ChangeBoundary(us: seq<Utxo>, last: Digest, c: Digest, myScript: Bytes, tx: Tx)
    requires IsCommit(us, last, c, myScript, tx)
    ensures Total(us) == 2000 ==> tx.outputs == [TxOut(0, [0x6a, 32] + c)]
    ensures Total(us) == 2001 ==> tx.outputs == [TxOut(0, [0x6a, 32] + c), TxOut(1001, myScript)]
    ensures FEE == 1000
  {
  }

  lemma {:induction false} KeysAre(us: seq<Utxo>)
    ensures |Keys(us)| == |us| && forall i :: 0 <= i < |us| ==> Keys(us)[i] == Key(us[i])
    decreases |us|
  {
    if us != [] {
      KeysAre(us[..|us| - 1]);
    }
  }

  /** Exactly the outputs held are spent. */
  lemma SpendsHeld(us: seq<Utxo>, inputs: seq<OutPoint>, o: OutPoint)
    requires multiset(inputs) == multiset(Keys(us))
    ensures o in inputs <==> Find(us, o).Some?
  {
    KeysAre(us);
    FindIs(us, o);
    assert o in inputs <==> o in multiset(inputs);
    assert o in Keys(us) <==> o in multiset(Keys(us));
    if Find(us, o).Some? {
      var i :| 0 <= i < |us| && Key(us[i]) == o;
      assert Keys(us)[i] == o;
    }
  }

  lemma OneLeft(us: seq<Utxo>, u: Utxo)
    requires Unique(us) && forall o :: Find(us, o) == if o == Key(u) then Some(u) else None
    ensures us == [u]
  {
    hide Find;
    forall i | 0 <= i < |us|
      ensures us[i] == u
    {
      FindAt(us, i);
      assert Find(us, Key(us[i])).Some?;
    }
    FindIs(us, Key(u));
    assert Find(us, Key(u)).Some?;
    assert |us| > 1 ==> Key(us[0]) != Key(us[1]);
  }

  /** The wallet before and after a commitment is mined; its transaction hash is new and its data output is nobody's. */
  ghost predicate Cycle(mine: Bytes -> bool, us: seq<Utxo>, t: Mined, us': seq<Utxo>)
  {
    && Unique(us) && Unique(us')
    && (forall o :: Find(us', o) == Effect(mine, t, o, Find(us, o)))
    && (forall i :: 0 <= i < |us| ==> us[i].txHash != t.id)
    && (|t.tx.outputs| > 0 ==> !mine(t.tx.outputs[0].script))
  }

  /** A mined commitment leaves one output, its own change, worth everything but the fee. */
  lemma MinedCommit(mine: Bytes -> bool, myScript: Bytes, us: seq<Utxo>, last: Digest, c: Digest,
                    t: Mined, us': seq<Utxo>)
    requires Cycle(mine, us, t, us') && IsCommit(us, last, c, myScript, t.tx)
    requires mine(myScript) && Total(us) > FEE + MINOUTPUT
    ensures us' == [Utxo(t.id, 1, Total(us) - FEE, myScript)]
    ensures Total(us') == Total(us) - FEE && HoldsChange(us', t.id)
  {
    hide Find, Total, Keys, Carries;
    var change := OutputAt(t, 1);
    forall o
      ensures Find(us', o) == if o == Key(change) then Some(change) else None
    {
      SpendsHeld(us, t.tx.inputs, o);
      FindIs(us, o);
    }
    OneLeft(us', change);
    TotalNone();
    TotalAppend([], change);
    assert [] + [change] == [change];
    assert IsChange(us'[0], t.id);
  }

  /** The wallet over a run of commitments, each mined before the next is made. */
  ghost predicate Commits(mine: Bytes -> bool, myScript: Bytes, first: Digest,
                          held: seq<seq<Utxo>>, cs: seq<Digest>, ts: seq<Mined>)
  {
    && |held| == |ts| + 1 && |cs| == |ts|
    && forall i :: 0 <= i < |ts| ==>
         && Cycle(mine, held[i], ts[i], held[i + 1])
         && IsCommit(held[i], LastId(first, ts, i), cs[i], myScript, ts[i].tx)
  }

  /** The hash of the commitment before the one at `i`. */
  function LastId(first: Digest, ts: seq<Mined>, i: nat): Digest
    requires i <= |ts|
  {
    if i == 0 then first else ts[i - 1].id
  }

  /**
   Each commitment of a run spends the change of the one before it, which is what clients demand of
   the next link, and the run costs one fee per commitment.
   */
  lemma {:induction false} CommitsChain(mine: Bytes -> bool, myScript: Bytes, first: Digest,
                                        held: seq<seq<Utxo>>, cs: seq<Digest>, ts: seq<Mined>, k: nat)
    requires Commits(mine, myScript, first, held, cs, ts) && mine(myScript) && k <= |ts|
    requires Total(held[0]) > FEE * |ts| + MINOUTPUT
    ensures Total(held[k]) == Total(held[0]) - FEE * k
    ensures k > 0 ==> held[k] == [Utxo(ts[k - 1].id, 1, Total(held[0]) - FEE * k, myScript)]
    ensures 0 < k < |ts| ==> |ts[k].tx.inputs| > 0 && ts[k].tx.inputs == [OutPoint(ts[k - 1].id, 1)]
    decreases k
  {
    hide Cycle, Total, Keys, Carries;
    if k > 0 {
      CommitsChain(mine, myScript, first, held, cs, ts, k - 1);
      MinedCommit(mine, myScript, held[k - 1], LastId(first, ts, k - 1), cs[k - 1], ts[k - 1], held[k]);
      if k < |ts| {
        KeysAre(held[k]);
        OnlyInput(ts[k].tx.inputs, held[k][0], held[k]);
      }
    }
  }

  lemma OnlyInput(inputs: seq<OutPoint>, u: Utxo, us: seq<Utxo>)
    requires us == [u] && multiset(inputs) == multiset(Keys(us))
    ensures inputs == [Key(u)]
  {
    KeysAre(us);
    SameLength(inputs, Keys(us));
    assert Keys(us) == [Key(u)];
    assert inputs[0] in multiset(inputs);
  }

  // ----- the list -----

  /** Lists with the same entries under an outpoint find the same there. */
  lemma FindSame(a: seq<Utxo>, b: seq<Utxo>, o: OutPoint)
    requires Unique(a) && Unique(b) && forall u :: Key(u) == o ==> (u in a <==> u in b)
    ensures Find(a, o) == Find(b, o)
  {
    hide Find;
    if Find(a, o).Some? {
      FindOnly(a, o, Find(a, o).value);
      FindOnly(b, o, Find(a, o).value);
    }
    if Find(b, o).Some? {
      FindOnly(a, o, Find(b, o).value);
      FindOnly(b, o, Find(b, o).value);
    }
  }

  lemma FindUpdated(us: seq<Utxo>, i: nat, u: Utxo, o: OutPoint)
    requires Unique(us) && i < |us| && Key(u) == Key(us[i])
    ensures Unique(us[i := u]) && Find(us[i := u], o) == if o == Key(u) then Some(u) else Find(us, o)
  {
    hide Find;
    var r := us[i := u];
    assert forall k :: 0 <= k < |us| ==> Key(r[k]) == Key(us[k]);
    if o == Key(u) {
      assert r[i] == u;
      FindOnly(r, o, u);
    } else {
      forall v | Key(v) == o
        ensures v in us <==> v in r
      {
        if v in us {
          var k :| 0 <= k < |us| && us[k] == v;
          assert r[k] == v;
        }
      }
      FindSame(us, r, o);
    }
  }

  lemma FindAppended(us: seq<Utxo>, u: Utxo, o: OutPoint)
    requires Unique(us) && forall i :: 0 <= i < |us| ==> Key(us[i]) != Key(u)
    ensures Unique(us + [u]) && Find(us + [u], o) == if o == Key(u) then Some(u) else Find(us, o)
  {
    assert (us + [u])[..|us|] == us;
  }

  lemma FindRemoved(us: seq<Utxo>, i: nat, o: OutPoint)
    requires Unique(us) && i < |us|
    ensures var r := us[..i] + us[i + 1..];
            Unique(r) && Find(r, o) == if o == Key(us[i]) then None else Find(us, o)
  {
    hide Find;
    var r := us[..i] + us[i + 1..];
    assert forall k :: 0 <= k < |r| ==> r[k] == us[if k < i then k else k + 1];
    if o == Key(us[i]) {
      FindIs(r, o);
    } else {
      forall v | Key(v) == o
        ensures v in us <==> v in r
      {
        if v in us {
          var k :| 0 <= k < |us| && us[k] == v;
          assert r[if k < i then k else k - 1] == v;
        }
      }
      FindSame(us, r, o);
    }
  }

  class Wallet {
    const mine: Bytes -> bool
    const myScript: Bytes
    var utxos: seq<Utxo>
    var lastCommitmentTxId: Digest

    constructor (mine: Bytes -> bool, myScript: Bytes)
      ensures this.mine == mine && this.myScript == myScript && utxos == [] && Unique(utxos)
      ensures lastCommitmentTxId == ZERO
    {
      this.mine, this.myScript, utxos, lastCommitmentTxId := mine, myScript, [], ZERO;
    }

    /**
     `Commit`. `broadcast` gives the hash under which the network takes a transaction, or nothing. It
     fails only if the fee is not covered or the network refuses the commitment.
     */
    method Commit(commitment: Digest, broadcast: Tx -> Option<Digest>) returns (r: Option<Mined>)
      modifies this`lastCommitmentTxId
      ensures r.None? ==> lastCommitmentTxId == old(lastCommitmentTxId)
      ensures Total(utxos) < FEE ==> r.None?
      ensures r.None? && Total(utxos) >= FEE ==>
                exists tx :: IsCommit(utxos, lastCommitmentTxId, commitment, myScript, tx) && broadcast(tx).None?
      ensures r.Some? ==>
                && IsCommit(utxos, old(lastCommitmentTxId), commitment, myScript, r.value.tx)
                && broadcast(r.value.tx) == Some(r.value.id) && lastCommitmentTxId == r.value.id
    {
      hide Total, Keys;
      var tx := Tx([], [TxOut(0, [0x6a, 32] + commitment)]);
      var full := AddInputsAndChange(utxos, lastCommitmentTxId, tx, FEE, myScript);
      if full.None? {
        return None;
      }
      assert full.value.inputs[0..] == full.value.inputs;
      var txid := broadcast(full.value);
      if txid.None? {
        return None;
      }
      lastCommitmentTxId := txid.value;
      r := Some(Mined(txid.value, full.value));
    }

    /** An output already listed is overwritten, a new one appended. */
    method RegisterUtxo(u: Utxo)
      requires Unique(utxos)
      modifies this`utxos
      ensures Unique(utxos)
      ensures forall o :: Find(utxos, o) == if o == Key(u) then Some(u) else Find(old(utxos), o)
    {
      hide Find;
      var alreadyAtIdx := -1;
      for i := 0 to |utxos|
        invariant -1 <= alreadyAtIdx < i
        invariant alreadyAtIdx >= 0 ==> Key(utxos[alreadyAtIdx]) == Key(u)
        invariant alreadyAtIdx < 0 ==> forall k :: 0 <= k < i ==> Key(utxos[k]) != Key(u)
        invariant utxos == old(utxos)
      {
        if Key(utxos[i]) == Key(u) {
          alreadyAtIdx := i;
        }
      }
      if alreadyAtIdx >= 0 {
        var r := utxos[alreadyAtIdx := u];
        forall o
          ensures Unique(r) && Find(r, o) == if o == Key(u) then Some(u) else Find(utxos, o)
        {
          FindUpdated(utxos, alreadyAtIdx, u, o);
        }
        utxos := r;
      } else {
        forall o
          ensures Unique(utxos + [u]) && Find(utxos + [u], o) == if o == Key(u) then Some(u) else Find(utxos, o)
        {
          FindAppended(utxos, u, o);
        }
        utxos := utxos + [u];
      }
    }

    /** One spent input. */
    method Remove(spent: OutPoint)
      requires Unique(utxos)
      modifies this`utxos
      ensures Unique(utxos)
      ensures forall o :: Find(utxos, o) == if o == spent then None else Find(old(utxos), o)
    {
      hide Find;
      var removeIndex := -1;
      for j := 0 to |utxos|
        invariant removeIndex == -1 && utxos == old(utxos)
        invariant forall k :: 0 <= k < j ==> Key(utxos[k]) != spent
      {
        if Key(utxos[j]) == spent {
          removeIndex := j;
          break;
        }
      }
      if removeIndex >= 0 {
        var r := utxos[..removeIndex] + utxos[removeIndex + 1..];
        forall o
          ensures Unique(r) && Find(r, o) == if o == spent then None else Find(utxos, o)
        {
          FindRemoved(utxos, removeIndex, o);
        }
        utxos := r;
      } else {
        FindIs(utxos, spent);
      }
    }

    method MarkTxInputsAsSpent(inputs: seq<OutPoint>)
      requires Unique(utxos)
      modifies this`utxos
      ensures Unique(utxos)
      ensures forall o :: Find(utxos, o) == if o in inputs then None else Find(old(utxos), o)
    {
      hide Find, Unique;
      for i := 0 to |inputs|
        invariant Unique(utxos)
        invariant forall o :: Find(utxos, o) == if o in inputs[..i] then None else Find(old(utxos), o)
      {
        assert inputs[..i + 1] == inputs[..i] + [inputs[i]];
        Remove(inputs[i]);
      }
      assert inputs[..|inputs|] == inputs;
    }

    /** Outputs first, then inputs. */
    method ProcessTransaction(t: Mined)
      requires Unique(utxos)
      modifies this`utxos
      ensures Unique(utxos)
      ensures forall o :: Find(utxos, o) == Effect(mine, t, o, Find(old(utxos), o))
    {
      hide Find, Unique;
      for i := 0 to |t.tx.outputs|
        invariant Unique(utxos)
        invariant forall o :: Find(utxos, o) ==
                    if Creates(mine, t, o) && o.index < i then Some(OutputAt(t, o.index)) else Find(old(utxos), o)
      {
        if mine(t.tx.outputs[i].script) {
          RegisterUtxo(OutputAt(t, i));
        }
      }
      MarkTxInputsAsSpent(t.tx.inputs);
    }

    /** The transactions of a block, or of many. */
    method ProcessAll(ts: seq<Mined>)
      requires Unique(utxos)
      modifies this`utxos
      ensures Unique(utxos)
      ensures forall o :: Find(utxos, o) == After(mine, ts, o, Find(old(utxos), o))
    {
      hide Find, Unique, Effect;
      for i := 0 to |ts|
        invariant Unique(utxos)
        invariant forall o :: Find(utxos, o) == After(mine, ts[..i], o, Find(old(utxos), o))
      {
        assert ts[..i + 1][..i] == ts[..i];
        ProcessTransaction(ts[i]);
      }
      assert ts[..|ts|] == ts;
    }

    /** Rescanning the last transactions after a restart leaves what is held as it was. */
    method Rescan(ghost ts: seq<Mined>, k: nat, tail: seq<Mined>, ghost before: seq<Utxo>)
      requires Unique(utxos) && Causal(ts) && k <= |ts| && tail == ts[k..]
      requires forall o :: Find(utxos, o) == After(mine, ts, o, Find(before, o))
      modifies this`utxos
      ensures Unique(utxos) && forall o :: Find(utxos, o) == Find(old(utxos), o)
    {
      hide Find, Unique, After, Causal;
      ProcessAll(tail);
      forall o
        ensures Find(utxos, o) == Find(old(utxos), o)
      {
        Replay(mine, ts, k, o, Find(before, o));
      }
    }
  }
}
