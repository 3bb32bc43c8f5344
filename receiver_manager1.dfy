// ReceiverManager1 (ohSongcast/ReceiverManager1.cpp): the receivers of one
// room of the house, one per source of type "Receiver", kept in step with
// the room's source list. When the list changes, receivers are reconciled by
// the UDN of their device: a receiver whose device is still listed keeps its
// identity and takes the new source index; one whose device is gone is
// removed; a source with no matching receiver gets a new one, appended.
//
// The room (IRoom) is seen through a RoomView value: its sources and its
// current source. A CpDevice is a Device value; two devices are the same
// object exactly when the values are equal. Receiver objects are values with
// an identity number handed out by the room, and the handler's callbacks
// are a log of events naming receivers by that number.
module ReceiverManager1 {
  import opened OhmWire

  datatype Device = Device(handle: nat, udn: string)

  datatype Source = Source(kind: string, group: string, name: string, device: Device)

  /** What the room reports: its sources, and the kind and device of its
      current source. */
  datatype RoomView = RoomView(sources: seq<Source>, currentKind: string, currentDevice: Device)

  /** A ReceiverManager1Receiver: its identity, the group and name it was
      made with, the index of its source and its device. */
  datatype Receiver = Receiver(id: nat, group: string, name: string, sourceIndex: nat, device: Device)

  /** The handler's callbacks. */
  datatype Event = ReceiverAdded(id: nat) | ReceiverChanged(id: nat) | ReceiverRemoved(id: nat)

  const ReceiverKind: string := "Receiver"

  predicate IsReceiver(s: Source)
  {
    s.kind == ReceiverKind
  }

  /** The device of the current source when that source is a receiver;
      otherwise nothing is selected. */
  function SelectedDevice(v: RoomView): (d: Option<Device>)
    ensures d.Some? <==> v.currentKind == ReceiverKind
    ensures d.Some? ==> d.value == v.currentDevice
  {
    if v.currentKind == ReceiverKind then Some(v.currentDevice) else None
  }

  function Ids(rs: seq<Receiver>): (ids: seq<nat>)
    ensures |ids| == |rs| && forall k :: 0 <= k < |rs| ==> ids[k] == rs[k].id
  {
    seq(|rs|, k requires 0 <= k < |rs| => rs[k].id)
  }

  /** No two receivers share an identity, and every identity is below the
      next one to be handed out. */
  predicate Distinct(rs: seq<Receiver>, nextId: nat)
  {
    (forall k :: 0 <= k < |rs| ==> rs[k].id < nextId)
    && forall i, j :: 0 <= i < j < |rs| ==> rs[i].id != rs[j].id
  }

  // ---------------------------------------------------------------------
  // Receivers made from a source list

  /** One new receiver per receiver source, in source order, with
      identities handed out from firstId on. */
  function Made(sources: seq<Source>, firstId: nat): (rs: seq<Receiver>)
    ensures |rs| <= |sources|
    ensures forall k :: 0 <= k < |rs| ==> rs[k].id == firstId + k && rs[k].sourceIndex < |sources|
    decreases |sources|
  {
    if |sources| == 0 then []
    else
      var init := Made(sources[..|sources| - 1], firstId);
      var s := sources[|sources| - 1];
      if IsReceiver(s) then init + [Receiver(firstId + |init|, s.group, s.name, |sources| - 1, s.device)]
      else init
  }

  /** Each made receiver copies a receiver source, the source indices
      increase, and every receiver source has its receiver. */
  lemma {:induction false} MadeFaithful(sources: seq<Source>, firstId: nat)
    ensures forall k :: 0 <= k < |Made(sources, firstId)| ==>
      var r := Made(sources, firstId)[k];
      IsReceiver(sources[r.sourceIndex])
      && r.group == sources[r.sourceIndex].group && r.name == sources[r.sourceIndex].name
      && r.device == sources[r.sourceIndex].device
    ensures forall i, j :: 0 <= i < j < |Made(sources, firstId)| ==>
      Made(sources, firstId)[i].sourceIndex < Made(sources, firstId)[j].sourceIndex
    ensures forall p :: 0 <= p < |sources| && IsReceiver(sources[p]) ==>
      exists k :: 0 <= k < |Made(sources, firstId)| && Made(sources, firstId)[k].sourceIndex == p
    decreases |sources|
  {
    if |sources| > 0 {
      var init := sources[..|sources| - 1];
      MadeFaithful(init, firstId);
      var m, mi := Made(sources, firstId), Made(init, firstId);
      assert m[..|mi|] == mi;
      forall k | 0 <= k < |m|
        ensures IsReceiver(sources[m[k].sourceIndex])
        ensures m[k].group == sources[m[k].sourceIndex].group && m[k].name == sources[m[k].sourceIndex].name
        ensures m[k].device == sources[m[k].sourceIndex].device
      {
        if k < |mi| {
          assert m[k] == mi[k] && sources[mi[k].sourceIndex] == init[mi[k].sourceIndex];
        }
      }
      forall i, j | 0 <= i < j < |m|
        ensures m[i].sourceIndex < m[j].sourceIndex
      {
        assert m[i] == mi[i];
        if j < |mi| {
          assert m[j] == mi[j];
        }
      }
      forall p | 0 <= p < |sources| && IsReceiver(sources[p])
        ensures exists k :: 0 <= k < |m| && m[k].sourceIndex == p
      {
        if p < |init| {
          assert init[p] == sources[p];
          var k :| 0 <= k < |mi| && mi[k].sourceIndex == p;
          assert m[k] == mi[k];
        } else {
          assert m[|m| - 1].sourceIndex == p;
        }
      }
    }
  }

  /** The room constructor's loop, and the first loop of Changed: a new
      receiver for every source of kind "Receiver", in source order. */
  method MakeReceivers(sources: seq<Source>, firstId: nat) returns (made: seq<Receiver>)
    ensures made == Made(sources, firstId)
  {
    made := [];
    var i := 0;
    while i < |sources|
      invariant i <= |sources| && made == Made(sources[..i], firstId)
    {
      assert sources[..i + 1][..i] == sources[..i];
      if IsReceiver(sources[i]) {
        made := made + [Receiver(firstId + |made|, sources[i].group, sources[i].name, i, sources[i].device)];
      }
      i := i + 1;
    }
    assert sources[..i] == sources;
  }

  /** The selection after new receivers are listed one by one: each whose
      device is the selected device becomes the selection, so the last such
      wins; with none, the selection stays. */
  function Reselect(sel: Option<nat>, rs: seq<Receiver>, dev: Option<Device>): (r: Option<nat>)
    ensures r == sel || (r.Some? && exists k :: 0 <= k < |rs| && rs[k].id == r.value && Some(rs[k].device) == dev)
    ensures (forall k :: 0 <= k < |rs| ==> Some(rs[k].device) != dev) ==> r == sel
    decreases |rs|
  {
    if |rs| == 0 then sel
    else if Some(rs[|rs| - 1].device) == dev then Some(rs[|rs| - 1].id)
    else
      var r := Reselect(sel, rs[..|rs| - 1], dev);
      assert forall k :: 0 <= k < |rs| - 1 ==> rs[..|rs| - 1][k] == rs[k];
      r
  }

  function AddedEvents(rs: seq<Receiver>): (es: seq<Event>)
    ensures |es| == |rs| && forall k :: 0 <= k < |rs| ==> es[k] == ReceiverAdded(rs[k].id)
  {
    seq(|rs|, k requires 0 <= k < |rs| => ReceiverAdded(rs[k].id))
  }

  function RemovedEvents(rs: seq<Receiver>): (es: seq<Event>)
    ensures |es| == |rs| && forall k :: 0 <= k < |rs| ==> es[k] == ReceiverRemoved(rs[k].id)
  {
    seq(|rs|, k requires 0 <= k < |rs| => ReceiverRemoved(rs[k].id))
  }

  /** The last loop of Changed, and the constructor's selection: the new
      receivers are appended, each reported as added, and the last one on
      the selected device becomes the selection. */
  method AppendReceivers(list: seq<Receiver>, sel: Option<nat>, toadd: seq<Receiver>, dev: Option<Device>)
    returns (list': seq<Receiver>, sel': Option<nat>, events: seq<Event>)
    ensures list' == list + toadd
    ensures sel' == Reselect(sel, toadd, dev)
    ensures events == AddedEvents(toadd)
  {
    list', sel', events := list, sel, [];
    var i := 0;
    while i < |toadd|
      invariant i <= |toadd|
      invariant list' == list + toadd[..i]
      invariant sel' == Reselect(sel, toadd[..i], dev)
      invariant events == AddedEvents(toadd[..i])
    {
      var r := toadd[i];
      assert toadd[..i + 1][..i] == toadd[..i] && toadd[..i + 1] == toadd[..i] + [r];
      list' := list' + [r];
      if Some(r.device) == dev {
        sel' := Some(r.id);
      }
      events := events + [ReceiverAdded(r.id)];
      i := i + 1;
    }
    assert toadd[..i] == toadd;
  }

  // ---------------------------------------------------------------------
  // Reconciliation by UDN

  /** The first candidate with the given UDN, or the number of candidates
      when there is none. */
  function FirstUdn(cands: seq<Receiver>, udn: string): (j: nat)
    ensures j <= |cands|
    ensures j < |cands| ==> cands[j].device.udn == udn
    decreases |cands|
  {
    if |cands| == 0 then 0
    else if cands[0].device.udn == udn then 0
    else 1 + FirstUdn(cands[1..], udn)
  }

  /** No candidate before the first one found has the UDN. */
  lemma {:induction false} FirstUdnFirst(cands: seq<Receiver>, udn: string)
    ensures forall k :: 0 <= k < FirstUdn(cands, udn) ==> cands[k].device.udn != udn
    decreases |cands|
  {
    if |cands| > 0 && cands[0].device.udn != udn {
      FirstUdnFirst(cands[1..], udn);
      assert forall k :: 1 <= k < |cands| ==> cands[k] == cands[1..][k - 1];
    }
  }

  /** The result of Changed's scan of the prior list. updated is the prior list
      with each matched receiver's source index taken from its candidate;
      kept are the matched receivers so updated; deleted are the unmatched
      prior receivers; unmatched are the candidates no prior receiver took. */
  datatype Reconciled = Reconciled(updated: seq<Receiver>, kept: seq<Receiver>, deleted: seq<Receiver>, unmatched: seq<Receiver>)

  /** Each prior receiver, in order, takes the first remaining candidate with
      its device's UDN. */
  function Reconcile(prior: seq<Receiver>, cands: seq<Receiver>): Reconciled
    decreases |prior|
  {
    if |prior| == 0 then Reconciled([], [], [], cands)
    else
      var j := FirstUdn(cands, prior[0].device.udn);
      if j < |cands| then
        var r := Reconcile(prior[1..], cands[..j] + cands[j + 1..]);
        var moved := prior[0].(sourceIndex := cands[j].sourceIndex);
        Reconciled([moved] + r.updated, [moved] + r.kept, r.deleted, r.unmatched)
      else
        var r := Reconcile(prior[1..], cands);
        Reconciled([prior[0]] + r.updated, r.kept, [prior[0]] + r.deleted, r.unmatched)
  }

  /** The UDN and source index a receiver stands for. */
  function Keys(rs: seq<Receiver>): (ks: seq<(string, nat)>)
    ensures |ks| == |rs| && forall k :: 0 <= k < |rs| ==> ks[k] == (rs[k].device.udn, rs[k].sourceIndex)
  {
    seq(|rs|, k requires 0 <= k < |rs| => (rs[k].device.udn, rs[k].sourceIndex))
  }

  lemma KeysCons(x: Receiver, rs: seq<Receiver>)
    ensures multiset(Keys([x] + rs)) == multiset{(x.device.udn, x.sourceIndex)} + multiset(Keys(rs))
  {
    assert Keys([x] + rs) == [(x.device.udn, x.sourceIndex)] + Keys(rs);
  }

  /** Taking candidate j out of the list and covering it by x keeps the
      candidates' keys covered. */
  lemma KeysTake(cands: seq<Receiver>, j: nat, x: Receiver, kept: seq<Receiver>, unmatched: seq<Receiver>)
    requires j < |cands| && x.device.udn == cands[j].device.udn && x.sourceIndex == cands[j].sourceIndex
    requires multiset(Keys(kept)) + multiset(Keys(unmatched)) == multiset(Keys(cands[..j] + cands[j + 1..]))
    ensures multiset(Keys([x] + kept)) + multiset(Keys(unmatched)) == multiset(Keys(cands))
  {
    var ks := Keys(cands);
    var left, right := ks[..j], ks[j + 1..];
    KeysCons(x, kept);
    assert Keys(cands[..j] + cands[j + 1..]) == left + right;
    assert multiset(left + right) == multiset(left) + multiset(right);
    assert ks == left + [ks[j]] + right;
    assert multiset(ks) == multiset(left) + multiset{ks[j]} + multiset(right);
    assert ks[j] == (x.device.udn, x.sourceIndex);
    calc {
      multiset(Keys([x] + kept)) + multiset(Keys(unmatched));
      multiset{ks[j]} + (multiset(Keys(kept)) + multiset(Keys(unmatched)));
      multiset{ks[j]} + (multiset(left) + multiset(right));
      multiset(ks);
    }
  }

  /** Kept and unmatched together stand for exactly the candidates: every
      listed source is covered once, by a prior receiver that took its UDN
      and source index or by a new one. */
  lemma {:induction false} ReconcileCovers(prior: seq<Receiver>, cands: seq<Receiver>)
    ensures multiset(Keys(Reconcile(prior, cands).kept)) + multiset(Keys(Reconcile(prior, cands).unmatched))
      == multiset(Keys(cands))
    decreases |prior|
  {
    if |prior| > 0 {
      var j := FirstUdn(cands, prior[0].device.udn);
      if j < |cands| {
        var rest := cands[..j] + cands[j + 1..];
        ReconcileCovers(prior[1..], rest);
        var r := Reconcile(prior[1..], rest);
        KeysTake(cands, j, prior[0].(sourceIndex := cands[j].sourceIndex), r.kept, r.unmatched);
      } else {
        ReconcileCovers(prior[1..], cands);
      }
    }
  }

  /** The scan changes nothing of a prior receiver but its source index. */
  lemma {:induction false} ReconcileUpdated(prior: seq<Receiver>, cands: seq<Receiver>)
    ensures |Reconcile(prior, cands).updated| == |prior|
    ensures forall i :: 0 <= i < |prior| ==>
      Reconcile(prior, cands).updated[i] == prior[i].(sourceIndex := Reconcile(prior, cands).updated[i].sourceIndex)
    decreases |prior|
  {
    if |prior| > 0 {
      var j := FirstUdn(cands, prior[0].device.udn);
      var rest := if j < |cands| then cands[..j] + cands[j + 1..] else cands;
      ReconcileUpdated(prior[1..], rest);
      var u := Reconcile(prior[1..], rest).updated;
      assert Reconcile(prior, cands).updated[1..] == u;
      forall i | 1 <= i < |prior|
        ensures u[i - 1] == prior[i].(sourceIndex := u[i - 1].sourceIndex)
      {
        assert prior[1..][i - 1] == prior[i];
      }
    }
  }

  lemma IdsCons(x: Receiver, rs: seq<Receiver>)
    ensures multiset(Ids([x] + rs)) == multiset{x.id} + multiset(Ids(rs))
  {
    assert Ids([x] + rs) == [x.id] + Ids(rs);
  }

  /** Placing a receiver with y's identity on either side keeps the
      identities of [y] + rest accounted for. */
  lemma IdsPlace(x: Receiver, y: Receiver, kept: seq<Receiver>, deleted: seq<Receiver>, rest: seq<Receiver>)
    requires x.id == y.id
    requires multiset(Ids(kept)) + multiset(Ids(deleted)) == multiset(Ids(rest))
    ensures multiset(Ids([x] + kept)) + multiset(Ids(deleted)) == multiset(Ids([y] + rest))
    ensures multiset(Ids(kept)) + multiset(Ids([x] + deleted)) == multiset(Ids([y] + rest))
  {
    IdsCons(x, kept);
    IdsCons(x, deleted);
    IdsCons(y, rest);
  }

  /** Every prior receiver is kept or deleted, never both. */
  lemma {:induction false} ReconcileIds(prior: seq<Receiver>, cands: seq<Receiver>)
    ensures multiset(Ids(Reconcile(prior, cands).kept)) + multiset(Ids(Reconcile(prior, cands).deleted))
      == multiset(Ids(prior))
    decreases |prior|
  {
    if |prior| > 0 {
      var j := FirstUdn(cands, prior[0].device.udn);
      var rest := if j < |cands| then cands[..j] + cands[j + 1..] else cands;
      ReconcileIds(prior[1..], rest);
      var r := Reconcile(prior[1..], rest);
      var x := if j < |cands| then prior[0].(sourceIndex := cands[j].sourceIndex) else prior[0];
      IdsPlace(x, prior[0], r.kept, r.deleted, prior[1..]);
      assert [prior[0]] + prior[1..] == prior;
    }
  }

  /** The deleted receivers are prior receivers, unchanged. */
  lemma {:induction false} ReconcileDeletedFrom(prior: seq<Receiver>, cands: seq<Receiver>)
    ensures forall d :: d in Reconcile(prior, cands).deleted ==> d in prior
    decreases |prior|
  {
    if |prior| > 0 {
      var j := FirstUdn(cands, prior[0].device.udn);
      var rest := if j < |cands| then cands[..j] + cands[j + 1..] else cands;
      ReconcileDeletedFrom(prior[1..], rest);
      assert forall d :: d in prior[1..] ==> d in prior;
    }
  }

  /** With distinct identities, the deleted receivers have distinct
      identities too. */
  lemma {:induction false} ReconcileDeletedDistinct(prior: seq<Receiver>, cands: seq<Receiver>, nextId: nat)
    requires Distinct(prior, nextId)
    ensures Distinct(Reconcile(prior, cands).deleted, nextId)
    decreases |prior|
  {
    if |prior| > 0 {
      var j := FirstUdn(cands, prior[0].device.udn);
      var rest := if j < |cands| then cands[..j] + cands[j + 1..] else cands;
      assert Distinct(prior[1..], nextId);
      ReconcileDeletedDistinct(prior[1..], rest, nextId);
      ReconcileDeletedFrom(prior[1..], rest);
      var d := Reconcile(prior[1..], rest).deleted;
      forall k | 0 <= k < |d|
        ensures d[k].id != prior[0].id
      {
        assert d[k] in prior[1..];
      }
    }
  }

  /** What is added comes from the candidates. */
  lemma {:induction false} ReconcileUnmatchedFrom(prior: seq<Receiver>, cands: seq<Receiver>)
    ensures forall u :: u in Reconcile(prior, cands).unmatched ==> u in cands
    decreases |prior|
  {
    if |prior| > 0 {
      var j := FirstUdn(cands, prior[0].device.udn);
      if j < |cands| {
        var rest := cands[..j] + cands[j + 1..];
        ReconcileUnmatchedFrom(prior[1..], rest);
        assert forall u :: u in rest ==> u in cands;
      } else {
        ReconcileUnmatchedFrom(prior[1..], cands);
      }
    }
  }

  /** A receiver is never removed while a receiver with its UDN is
      added. */
  lemma {:induction false} ReconcileNoReadd(prior: seq<Receiver>, cands: seq<Receiver>)
    ensures forall d, u :: d in Reconcile(prior, cands).deleted && u in Reconcile(prior, cands).unmatched ==>
      d.device.udn != u.device.udn
    decreases |prior|
  {
    if |prior| > 0 {
      var j := FirstUdn(cands, prior[0].device.udn);
      if j < |cands| {
        ReconcileNoReadd(prior[1..], cands[..j] + cands[j + 1..]);
      } else {
        ReconcileNoReadd(prior[1..], cands);
        ReconcileUnmatchedFrom(prior[1..], cands);
        FirstUdnFirst(cands, prior[0].device.udn);
        forall u | u in Reconcile(prior[1..], cands).unmatched
          ensures prior[0].device.udn != u.device.udn
        {
          var k :| 0 <= k < |cands| && cands[k] == u;
        }
      }
    }
  }

  /** Candidates with distinct identities leave unmatched ones with
      distinct identities. */
  lemma {:induction false} ReconcileUnmatchedDistinct(prior: seq<Receiver>, cands: seq<Receiver>, nextId: nat)
    requires Distinct(cands, nextId)
    ensures Distinct(Reconcile(prior, cands).unmatched, nextId)
    decreases |prior|
  {
    if |prior| > 0 {
      var j := FirstUdn(cands, prior[0].device.udn);
      if j < |cands| {
        var rest := cands[..j] + cands[j + 1..];
        forall a, b | 0 <= a < b < |rest|
          ensures rest[a].id != rest[b].id
        {
          var a', b' := if a < j then a else a + 1, if b < j then b else b + 1;
          assert rest[a] == cands[a'] && rest[b] == cands[b'];
        }
        ReconcileUnmatchedDistinct(prior[1..], rest, nextId);
      } else {
        ReconcileUnmatchedDistinct(prior[1..], cands, nextId);
      }
    }
  }

  // ---------------------------------------------------------------------
  // Removing the deleted receivers

  function IdSet(rs: seq<Receiver>): set<nat>
  {
    set r | r in rs :: r.id
  }

  /** The receivers of the list whose identities are not in gone, in list
      order. */
  function Drop(rs: seq<Receiver>, gone: set<nat>): seq<Receiver>
    decreases |rs|
  {
    if |rs| == 0 then []
    else (if rs[0].id in gone then [] else [rs[0]]) + Drop(rs[1..], gone)
  }

  /** Drop keeps exactly the receivers whose identities are not gone. */
  lemma {:induction false} DropMembers(rs: seq<Receiver>, gone: set<nat>)
    ensures forall x :: x in Drop(rs, gone) <==> x in rs && x.id !in gone
    decreases |rs|
  {
    if |rs| > 0 {
      DropMembers(rs[1..], gone);
      assert forall x :: x in rs <==> x == rs[0] || x in rs[1..] by {
        assert rs == [rs[0]] + rs[1..];
      }
    }
  }

  lemma {:induction false} DropDistinct(rs: seq<Receiver>, gone: set<nat>, nextId: nat)
    requires Distinct(rs, nextId)
    ensures Distinct(Drop(rs, gone), nextId)
    decreases |rs|
  {
    if |rs| > 0 {
      assert Distinct(rs[1..], nextId);
      DropDistinct(rs[1..], gone, nextId);
      DropMembers(rs[1..], gone);
      var d := Drop(rs[1..], gone);
      forall k | 0 <= k < |d|
        ensures d[k].id != rs[0].id
      {
        assert d[k] in d;
        var i :| 0 <= i < |rs[1..]| && rs[1..][i] == d[k];
      }
    }
  }

  /** Dropping an identity no receiver has changes nothing. */
  lemma {:induction false} DropAbsent(rs: seq<Receiver>, gone: set<nat>, x: nat)
    requires forall k :: 0 <= k < |rs| ==> rs[k].id != x
    ensures Drop(rs, gone + {x}) == Drop(rs, gone)
    decreases |rs|
  {
    if |rs| > 0 {
      DropAbsent(rs[1..], gone, x);
    }
  }

  /** Dropping one more identity from a dropped list is dropping both. */
  lemma {:induction false} DropTwice(rs: seq<Receiver>, gone: set<nat>, x: nat)
    ensures Drop(Drop(rs, gone), {x}) == Drop(rs, gone + {x})
    decreases |rs|
  {
    if |rs| > 0 {
      DropTwice(rs[1..], gone, x);
      var d := Drop(rs, gone);
      if rs[0].id in gone {
        assert d == Drop(rs[1..], gone);
      } else {
        assert d == [rs[0]] + Drop(rs[1..], gone);
        assert d[0] == rs[0] && d[1..] == Drop(rs[1..], gone);
      }
    }
  }

  /** Erasing the one receiver with a given identity from a list of
      distinct identities drops that identity. */
  lemma {:induction false} EraseIsDrop(rs: seq<Receiver>, p: nat, nextId: nat)
    requires Distinct(rs, nextId) && p < |rs|
    ensures rs[..p] + rs[p + 1..] == Drop(rs, {rs[p].id})
    decreases |rs|
  {
    if p == 0 {
      var x := rs[0].id;
      assert forall k :: 0 <= k < |rs[1..]| ==> rs[1..][k].id != x by {
        forall k | 0 <= k < |rs[1..]|
          ensures rs[1..][k].id != x
        {
          assert rs[1..][k] == rs[k + 1];
        }
      }
      DropAbsent(rs[1..], {}, x);
      assert {} + {x} == {x};
      DropNone(rs[1..]);
      assert Drop(rs, {x}) == Drop(rs[1..], {x});
    } else {
      assert Distinct(rs[1..], nextId);
      EraseIsDrop(rs[1..], p - 1, nextId);
      assert rs[1..][p - 1] == rs[p];
      assert rs[..p] + rs[p + 1..] == [rs[0]] + (rs[1..][..p - 1] + rs[1..][p..]);
    }
  }

  lemma {:induction false} DropNone(rs: seq<Receiver>)
    ensures Drop(rs, {}) == rs
    decreases |rs|
  {
    if |rs| > 0 {
      DropNone(rs[1..]);
      assert rs == [rs[0]] + rs[1..];
    }
  }

  /** With distinct identities, the kept receivers are the updated list
      without the deleted ones. */
  lemma {:induction false} KeptIsDrop(prior: seq<Receiver>, cands: seq<Receiver>, nextId: nat)
    requires Distinct(prior, nextId)
    ensures Reconcile(prior, cands).kept == Drop(Reconcile(prior, cands).updated, IdSet(Reconcile(prior, cands).deleted))
    decreases |prior|
  {
    if |prior| > 0 {
      var j := FirstUdn(cands, prior[0].device.udn);
      var rest := if j < |cands| then cands[..j] + cands[j + 1..] else cands;
      assert Distinct(prior[1..], nextId);
      KeptIsDrop(prior[1..], rest, nextId);
      var r := Reconcile(prior[1..], rest);
      var rr := Reconcile(prior, cands);
      if j < |cands| {
        ReconcileDeletedFrom(prior[1..], rest);
        assert prior[0].id !in IdSet(r.deleted) by {
          forall d | d in r.deleted
            ensures d.id != prior[0].id
          {
            assert d in prior[1..];
          }
        }
        assert rr.updated[0] == rr.kept[0] && rr.updated[1..] == r.updated;
      } else {
        ReconcileUpdated(prior[1..], rest);
        assert IdSet(rr.deleted) == IdSet(r.deleted) + {prior[0].id};
        assert rr.updated[1..] == r.updated;
        forall k | 0 <= k < |r.updated|
          ensures r.updated[k].id != prior[0].id
        {
          assert prior[1..][k] == prior[k + 1];
        }
        DropAbsent(r.updated, IdSet(r.deleted), prior[0].id);
      }
    }
  }

  /** The selection once removed receivers are dropped: cleared when the
      selected receiver is among them. */
  function Deselect(sel: Option<nat>, removed: seq<Receiver>): (r: Option<nat>)
    ensures r == None || r == sel
    ensures r.Some? ==> r.value !in IdSet(removed)
  {
    if sel.Some? && sel.value in IdSet(removed) then None else sel
  }

  /** The inner search of Changed's removal loop: the position of the
      receiver with the given identity, or the list's length. */
  method FindId(rs: seq<Receiver>, id: nat) returns (p: nat)
    ensures p <= |rs|
    ensures p < |rs| ==> rs[p].id == id
    ensures p == |rs| ==> id !in Ids(rs)
  {
    p := 0;
    while p < |rs| && rs[p].id != id
      invariant p <= |rs| && forall k :: 0 <= k < p ==> rs[k].id != id
    {
      p := p + 1;
    }
  }

  /** The listed receiver is still there after other identities are
      dropped. */
  lemma StillListed(updated: seq<Receiver>, gone: set<nat>, id: nat)
    requires id in Ids(updated) && id !in gone
    ensures id in Ids(Drop(updated, gone))
  {
    var k :| 0 <= k < |updated| && Ids(updated)[k] == id;
    assert updated[k] in updated;
    DropMembers(updated, gone);
    var d := Drop(updated, gone);
    var q :| 0 <= q < |d| && d[q] == updated[k];
    assert Ids(d)[q] == id;
  }

  /** The next deleted receiver is not among those already dropped. */
  lemma NotYetGone(todelete: seq<Receiver>, i: nat, nextId: nat)
    requires Distinct(todelete, nextId) && i < |todelete|
    ensures todelete[..i + 1] == todelete[..i] + [todelete[i]]
    ensures todelete[i].id !in IdSet(todelete[..i])
    ensures IdSet(todelete[..i + 1]) == IdSet(todelete[..i]) + {todelete[i].id}
  {
    var d := todelete[i];
    assert todelete[..i + 1] == todelete[..i] + [d];
    forall x | x in todelete[..i]
      ensures x.id != d.id
    {
      var k :| 0 <= k < i && todelete[..i][k] == x;
    }
  }

  /** Erasing the next deleted receiver from the list drops one more
      identity. */
  lemma RemoveOne(updated: seq<Receiver>, gone: set<nat>, list: seq<Receiver>, p: nat, nextId: nat)
    requires Distinct(updated, nextId) && list == Drop(updated, gone)
    requires p < |list|
    ensures list[..p] + list[p + 1..] == Drop(updated, gone + {list[p].id})
    ensures Distinct(list[..p] + list[p + 1..], nextId)
  {
    DropDistinct(updated, gone, nextId);
    EraseIsDrop(list, p, nextId);
    DropTwice(updated, gone, list[p].id);
    DropDistinct(updated, gone + {list[p].id}, nextId);
  }

  /** Changed's removal loop: each deleted receiver is erased from the list
      and reported as removed, and the selection is cleared if it was the
      one erased. */
  method RemoveReceivers(updated: seq<Receiver>, todelete: seq<Receiver>, sel: Option<nat>, ghost nextId: nat)
    returns (list: seq<Receiver>, sel': Option<nat>, events: seq<Event>)
    requires Distinct(updated, nextId) && Distinct(todelete, nextId)
    requires forall d :: d in todelete ==> d.id in Ids(updated)
    ensures list == Drop(updated, IdSet(todelete))
    ensures sel' == Deselect(sel, todelete)
    ensures events == RemovedEvents(todelete)
  {
    list, sel', events := updated, sel, [];
    DropNone(updated);
    assert IdSet(todelete[..0]) == {};
    var i := 0;
    while i < |todelete|
      invariant i <= |todelete|
      invariant list == Drop(updated, IdSet(todelete[..i]))
      invariant sel' == Deselect(sel, todelete[..i])
      invariant events == RemovedEvents(todelete[..i])
    {
      var d := todelete[i];
      NotYetGone(todelete, i, nextId);
      StillListed(updated, IdSet(todelete[..i]), d.id);
      var p := FindId(list, d.id);
      if p < |list| {
        if sel' == Some(d.id) {
          sel' := None;
        }
        events := events + [ReceiverRemoved(d.id)];
        RemoveOne(updated, IdSet(todelete[..i]), list, p, nextId);
        list := list[..p] + list[p + 1..];
      }
      i := i + 1;
    }
    assert todelete[..i] == todelete;
  }

  // ---------------------------------------------------------------------
  // The scan of the prior list

  /** With the first-match characterisation, the position is FirstUdn's. */
  lemma {:induction false} FirstUdnUnique(cands: seq<Receiver>, udn: string, j: nat)
    requires j <= |cands| && (j < |cands| ==> cands[j].device.udn == udn)
    requires forall k :: 0 <= k < j ==> cands[k].device.udn != udn
    ensures j == FirstUdn(cands, udn)
    decreases |cands|
  {
    if |cands| > 0 && j > 0 {
      FirstUdnUnique(cands[1..], udn, j - 1);
    }
  }

  /** The inner search of Changed's scan: the first candidate with the
      given UDN, or the number of candidates. */
  method FindUdn(cands: seq<Receiver>, udn: string) returns (j: nat)
    ensures j == FirstUdn(cands, udn)
  {
    j := 0;
    while j < |cands| && cands[j].device.udn != udn
      invariant j <= |cands| && forall k :: 0 <= k < j ==> cands[k].device.udn != udn
    {
      j := j + 1;
    }
    FirstUdnUnique(cands, udn, j);
  }

  /** One step of the scan: the first remaining receiver takes its
      candidate or is deleted. */
  lemma ReconcileStep(prior: seq<Receiver>, i: nat, cands: seq<Receiver>)
    requires i < |prior|
    ensures var j := FirstUdn(cands, prior[i].device.udn);
      var r := Reconcile(prior[i..], cands);
      if j < |cands| then
        var moved := prior[i].(sourceIndex := cands[j].sourceIndex);
        var r' := Reconcile(prior[i + 1..], cands[..j] + cands[j + 1..]);
        r.updated == [moved] + r'.updated && r.kept == [moved] + r'.kept
        && r.deleted == r'.deleted && r.unmatched == r'.unmatched
      else
        var r' := Reconcile(prior[i + 1..], cands);
        r.updated == [prior[i]] + r'.updated && r.kept == r'.kept
        && r.deleted == [prior[i]] + r'.deleted && r.unmatched == r'.unmatched
  {
    assert prior[i..][0] == prior[i] && prior[i..][1..] == prior[i + 1..];
  }

  /** Changed's scan of the prior list: each receiver takes the first
      remaining candidate with its UDN, whose source index it adopts and
      which is discarded; a receiver with no such candidate is marked for
      deletion. The source updates the listed receiver in place; here the
      updated list is built alongside. */
  method MatchReceivers(prior: seq<Receiver>, toadd: seq<Receiver>)
    returns (updated: seq<Receiver>, todelete: seq<Receiver>, unmatched: seq<Receiver>)
    ensures updated == Reconcile(prior, toadd).updated
    ensures todelete == Reconcile(prior, toadd).deleted
    ensures unmatched == Reconcile(prior, toadd).unmatched
  {
    updated, todelete, unmatched := [], [], toadd;
    var i := 0;
    while i < |prior|
      invariant i <= |prior|
      invariant Reconcile(prior, toadd).updated == updated + Reconcile(prior[i..], unmatched).updated
      invariant Reconcile(prior, toadd).deleted == todelete + Reconcile(prior[i..], unmatched).deleted
      invariant Reconcile(prior, toadd).unmatched == Reconcile(prior[i..], unmatched).unmatched
    {
      var r := prior[i];
      ReconcileStep(prior, i, unmatched);
      var j := FindUdn(unmatched, r.device.udn);
      if j < |unmatched| {
        var moved := r.(sourceIndex := unmatched[j].sourceIndex);
        updated := updated + [moved];
        unmatched := unmatched[..j] + unmatched[j + 1..];
      } else {
        todelete := todelete + [r];
        updated := updated + [r];
      }
      i := i + 1;
    }
    assert prior[i..] == [];
  }

  /** What the removal loop needs of the scan: distinct identities, and
      every deleted receiver still listed. */
  lemma MatchedForRemoval(prior: seq<Receiver>, cands: seq<Receiver>, nextId: nat)
    requires Distinct(prior, nextId)
    ensures Distinct(Reconcile(prior, cands).updated, nextId)
    ensures Distinct(Reconcile(prior, cands).deleted, nextId)
    ensures forall d :: d in Reconcile(prior, cands).deleted ==> d.id in Ids(Reconcile(prior, cands).updated)
  {
    var r := Reconcile(prior, cands);
    ReconcileUpdated(prior, cands);
    ReconcileDeletedDistinct(prior, cands, nextId);
    ReconcileDeletedFrom(prior, cands);
    assert Ids(r.updated) == Ids(prior);
    forall d | d in r.deleted
      ensures d.id in Ids(r.updated)
    {
      var k :| 0 <= k < |prior| && prior[k] == d;
      assert Ids(prior)[k] == d.id;
    }
  }

  /** Made receivers have fresh, distinct identities. */
  lemma MadeDistinct(sources: seq<Source>, firstId: nat)
    ensures Distinct(Made(sources, firstId), firstId + |Made(sources, firstId)|)
    ensures forall k :: 0 <= k < |Made(sources, firstId)| ==> Made(sources, firstId)[k].id >= firstId
  {
  }

  /** The room's first receivers have distinct identities, and the
      selection, when there is one, names one of them. */
  lemma MadeValid(sources: seq<Source>, dev: Option<Device>)
    ensures Distinct(Made(sources, 0), |Made(sources, 0)|)
    ensures Reselect(None, Made(sources, 0), dev).Some? ==> Reselect(None, Made(sources, 0), dev).value in Ids(Made(sources, 0))
  {
    var made := Made(sources, 0);
    var sel := Reselect(None, made, dev);
    if sel.Some? {
      var k :| 0 <= k < |made| && made[k].id == sel.value && Some(made[k].device) == dev;
      assert Ids(made)[k] == sel.value;
    }
  }

  /** After Changed the receivers still have distinct identities, all
      below the next one to be handed out. */
  lemma ChangedDistinct(prior: seq<Receiver>, nextId: nat, cands: seq<Receiver>, n': nat)
    requires Distinct(prior, nextId) && Distinct(cands, n')
    requires forall k :: 0 <= k < |cands| ==> cands[k].id >= nextId
    requires nextId <= n'
    ensures var r := Reconcile(prior, cands); Distinct(r.kept + r.unmatched, n')
  {
    var r := Reconcile(prior, cands);
    var list := r.kept + r.unmatched;
    ReconcileUnmatchedDistinct(prior, cands, n');
    ReconcileUnmatchedFrom(prior, cands);
    KeptIsDrop(prior, cands, nextId);
    MatchedForRemoval(prior, cands, nextId);
    DropDistinct(r.updated, IdSet(r.deleted), nextId);
    forall a, b | 0 <= a < b < |list|
      ensures list[a].id != list[b].id
    {
      if b < |r.kept| {
        assert list[a] == r.kept[a] && list[b] == r.kept[b];
      } else if a >= |r.kept| {
        assert list[a] == r.unmatched[a - |r.kept|] && list[b] == r.unmatched[b - |r.kept|];
      } else {
        var u := r.unmatched[b - |r.kept|];
        assert list[a] == r.kept[a] && list[b] == u;
        assert u in r.unmatched;
        var c :| 0 <= c < |cands| && cands[c] == u;
      }
    }
  }

  /** After Changed, the selection, when there is one, names a listed
      receiver: one kept from before, or one just added. */
  lemma ChangedSelection(prior: seq<Receiver>, sel: Option<nat>, nextId: nat, cands: seq<Receiver>, dev: Option<Device>)
    requires Distinct(prior, nextId) && (sel.Some? ==> sel.value in Ids(prior))
    ensures var r := Reconcile(prior, cands);
      var sel' := Reselect(Deselect(sel, r.deleted), r.unmatched, dev);
      sel'.Some? ==> sel'.value in Ids(r.kept + r.unmatched)
  {
    var r := Reconcile(prior, cands);
    var list := r.kept + r.unmatched;
    var sel1 := Deselect(sel, r.deleted);
    var sel' := Reselect(sel1, r.unmatched, dev);
    if sel'.Some? {
      if sel' == sel1 {
        ReconcileUpdated(prior, cands);
        KeptIsDrop(prior, cands, nextId);
        DropMembers(r.updated, IdSet(r.deleted));
        var k :| 0 <= k < |prior| && Ids(prior)[k] == sel1.value;
        assert r.updated[k].id == sel1.value;
        assert r.updated[k] in r.kept;
        var q :| 0 <= q < |r.kept| && r.kept[q] == r.updated[k];
        assert Ids(list)[q] == sel1.value;
      } else {
        var k :| 0 <= k < |r.unmatched| && r.unmatched[k].id == sel'.value;
        assert Ids(list)[|r.kept| + k] == sel'.value;
      }
    }
  }

  // ---------------------------------------------------------------------
  // SourceChanged's search

  /** The first receiver on the device, if any. */
  function FirstOnDevice(rs: seq<Receiver>, dev: Device): (r: Option<nat>)
    ensures r.Some? <==> exists k :: 0 <= k < |rs| && rs[k].device == dev
    ensures r.Some? ==> exists k :: (0 <= k < |rs| && rs[k].device == dev && rs[k].id == r.value
      && forall i :: 0 <= i < k ==> rs[i].device != dev)
    decreases |rs|
  {
    if |rs| == 0 then None
    else if rs[0].device == dev then Some(rs[0].id)
    else
      var r := FirstOnDevice(rs[1..], dev);
      assert forall k :: 0 <= k < |rs| - 1 ==> rs[1..][k] == rs[k + 1];
      if r.Some? then
        var k :| (0 <= k < |rs[1..]| && rs[1..][k].device == dev && rs[1..][k].id == r.value
          && forall i :: 0 <= i < k ==> rs[1..][i].device != dev);
        assert rs[k + 1] == rs[1..][k];
        r
      else r
  }

  lemma {:induction false} FirstOnDeviceAt(rs: seq<Receiver>, dev: Device, p: nat)
    requires p < |rs| && rs[p].device == dev && forall k :: 0 <= k < p ==> rs[k].device != dev
    ensures FirstOnDevice(rs, dev) == Some(rs[p].id)
    decreases p
  {
    if p > 0 {
      FirstOnDeviceAt(rs[1..], dev, p - 1);
    }
  }

  /** SourceChanged's search loop: the position of the first receiver on
      the device, or the list's length. */
  method FindDevice(rs: seq<Receiver>, dev: Device) returns (p: nat)
    ensures p <= |rs|
    ensures p < |rs| ==> FirstOnDevice(rs, dev) == Some(rs[p].id)
    ensures p == |rs| ==> FirstOnDevice(rs, dev) == None
  {
    p := 0;
    while p < |rs| && rs[p].device != dev
      invariant p <= |rs| && forall k :: 0 <= k < p ==> rs[k].device != dev
    {
      p := p + 1;
    }
    if p < |rs| {
      FirstOnDeviceAt(rs, dev, p);
    }
  }

  /** The handler told of every receiver's removal, in list order. */
  method ReportRemoved(rs: seq<Receiver>) returns (events: seq<Event>)
    ensures events == RemovedEvents(rs)
  {
    events := [];
    var i := 0;
    while i < |rs|
      invariant i <= |rs| && events == RemovedEvents(rs[..i])
    {
      events := events + [ReceiverRemoved(rs[i].id)];
      i := i + 1;
    }
    assert rs[..i] == rs;
  }

  // ---------------------------------------------------------------------
  // ReceiverManager1Room

  class Room {
    var receivers: seq<Receiver>
    /** iSelected, as the identity of the selected receiver. */
    var selected: Option<nat>
    var nextId: nat
    var refCount: nat
    var events: seq<Event>

    ghost predicate Valid()
      reads this`receivers, this`selected, this`nextId
    {
      Distinct(receivers, nextId) && (selected.Some? ==> selected.value in Ids(receivers))
    }

    /** The room starts with a receiver per receiver source, each reported
        as added, and the one on the current source's device selected. The
        source does this in one loop; here the receivers are made first and
        then listed and reported, which gives the same result. */
    constructor (view: RoomView)
      ensures Valid() && refCount == 1
      ensures receivers == Made(view.sources, 0) && nextId == |receivers|
      ensures selected == Reselect(None, receivers, SelectedDevice(view))
      ensures events == AddedEvents(receivers)
    {
      var made := MakeReceivers(view.sources, 0);
      var list, sel, added := AppendReceivers([], None, made, SelectedDevice(view));
      MadeValid(view.sources, SelectedDevice(view));
      assert list == made;
      receivers, selected, nextId, refCount, events := list, sel, |made|, 1, added;
    }

    predicate IsSelected(r: Receiver)
      reads this`selected
    {
      selected == Some(r.id)
    }

    method AddRef()
      modifies this`refCount
      ensures refCount == old(refCount) + 1
    {
      refCount := refCount + 1;
    }

    /** Drops a reference; the room is deleted when none is left. */
    method RemoveRef() returns (deleted: bool)
      requires refCount > 0
      modifies this`refCount
      ensures refCount == old(refCount) - 1 && deleted == (refCount == 0)
    {
      refCount := refCount - 1;
      deleted := refCount == 0;
    }

    /** SourceChanged: the previous selection is cleared and reported as
        changed; then, if the current source is a receiver, the first
        receiver on its device is selected and reported. */
    method SourceChanged(view: RoomView)
      requires Valid()
      modifies this`selected, this`events
      ensures Valid()
      ensures selected == if SelectedDevice(view).Some? then FirstOnDevice(receivers, view.currentDevice) else None
      ensures events == old(events)
        + (if old(selected).Some? then [ReceiverChanged(old(selected).value)] else [])
        + (if selected.Some? then [ReceiverChanged(selected.value)] else [])
    {
      ghost var e0 := events;
      if selected.Some? {
        events := events + [ReceiverChanged(selected.value)];
        selected := None;
      }
      ghost var e1 := events;
      if view.currentKind == ReceiverKind {
        var p := FindDevice(receivers, view.currentDevice);
        if p < |receivers| {
          selected := Some(receivers[p].id);
          events := events + [ReceiverChanged(receivers[p].id)];
          assert Ids(receivers)[p] == receivers[p].id;
        }
      }
    }

    /** Changed: the receivers are reconciled with the room's new source
        list by UDN. Matched receivers keep their identity and take their
        new source index; the others are removed and reported; receivers
        for the unmatched sources are appended and reported. */
    method Changed(view: RoomView)
      requires Valid()
      modifies this`receivers, this`selected, this`nextId, this`events
      ensures Valid()
      ensures var r := Reconcile(old(receivers), Made(view.sources, old(nextId)));
        receivers == r.kept + r.unmatched
        && selected == Reselect(Deselect(old(selected), r.deleted), r.unmatched, SelectedDevice(view))
        && events == old(events) + RemovedEvents(r.deleted) + AddedEvents(r.unmatched)
      ensures nextId == old(nextId) + |Made(view.sources, old(nextId))|
    {
      var dev := SelectedDevice(view);
      var toadd := MakeReceivers(view.sources, nextId);
      var updated, todelete, unmatched := MatchReceivers(receivers, toadd);
      MatchedForRemoval(receivers, toadd, nextId);
      KeptIsDrop(receivers, toadd, nextId);
      MadeDistinct(view.sources, nextId);
      ChangedDistinct(receivers, nextId, toadd, nextId + |toadd|);
      ChangedSelection(receivers, selected, nextId, toadd, dev);
      var kept, sel, removed := RemoveReceivers(updated, todelete, selected, nextId);
      var list, sel', added := AppendReceivers(kept, sel, unmatched, dev);
      receivers, selected, nextId, events := list, sel', nextId + |toadd|, events + removed + added;
    }

    /** Removed: every receiver is reported as removed, then the room drops
        its own reference. */
    method Removed() returns (deleted: bool)
      requires refCount > 0
      modifies this`events, this`refCount
      ensures events == old(events) + RemovedEvents(receivers)
      ensures refCount == old(refCount) - 1 && deleted == (refCount == 0)
    {
      var removed := ReportRemoved(receivers);
      events := events + removed;
      deleted := RemoveRef();
    }
  }

  // ---------------------------------------------------------------------
  // The selection after Changed, as written

  /** Changed's removal loop as written clears the selection when a removed
      receiver is on the device of the current source, not when it is the
      selected receiver. */
  function DeselectAsWritten(sel: Option<nat>, removed: seq<Receiver>, dev: Option<Device>): (r: Option<nat>)
    ensures r == None || r == sel
    ensures (forall k :: 0 <= k < |removed| ==> Some(removed[k].device) != dev) ==> r == sel
  {
    if exists k :: 0 <= k < |removed| && Some(removed[k].device) == dev then None else sel
  }

  /** A room whose one selected receiver leaves, while the current source
      is no longer a receiver: Changed as written removes the receiver but
      keeps it selected. */
  lemma SelectionDanglesAsWritten()
    ensures var r := Receiver(0, [], [], 0, Device(1, []));
      var v := RoomView([], [], Device(2, []));
      var rec := Reconcile([r], Made(v.sources, 1));
      rec.kept + rec.unmatched == [] && rec.deleted == [r]
      && Reselect(DeselectAsWritten(Some(0), rec.deleted, SelectedDevice(v)), rec.unmatched, SelectedDevice(v)) == Some(0)
  {
    var r := Receiver(0, [], [], 0, Device(1, []));
    var v := RoomView([], [], Device(2, []));
    assert v.currentKind != ReceiverKind;
    assert Made(v.sources, 1) == [];
  }
}
