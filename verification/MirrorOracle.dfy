/** P1MirrorOracle: a median of signed prices, by signers copied from an underlying oracle. */
module MirrorOracle {
  import opened Options
  import opened Sequences
  import L = Ledger

  type Address = L.Address
  type SignerId = i: nat | i < 256

  const ID_SHIFT: nat := 0x1_00000000000000000000000000000000000000

  /** The first byte of the signer's address. */
  function GetSignerId(signer: Address): SignerId {
    signer / ID_SHIFT
  }

  /** A signed price; `signer` is the address recovered from the signature. */
  datatype Message = Message(val: nat, age: nat, signer: Address)

  datatype State = State(
    val: L.Uint128, age: L.Uint32, bar: nat, orcl: set<Address>, slots: map<SignerId, Address>)
  {
    /** Zero where nobody is registered. */
    function Slot(id: SignerId): Address {
      if id in slots then slots[id] else 0
    }
  }

  /** What the mirror reads of the underlying oracle. */
  datatype Underlying = Underlying(bar: nat, orcl: map<Address, nat>, slots: map<SignerId, Address>) {
    function Orcl(signer: Address): nat {
      if signer in orcl then orcl[signer] else 0
    }

    function Slot(id: SignerId): Address {
      if id in slots then slots[id] else 0
    }
  }

  // ---------- Prices ----------

  /** Signers are authorized and different in their first byte; messages are fresh and ordered by value. */
  predicate ValidMessages(s: State, messages: seq<Message>) {
    && (forall i :: 0 <= i < |messages| ==> messages[i].signer in s.orcl && messages[i].age > s.age)
    && (forall i, j :: 0 <= i < j < |messages| ==> messages[i].val <= messages[j].val)
    && (forall i, j :: 0 <= i < j < |messages| ==> GetSignerId(messages[i].signer) != GetSignerId(messages[j].signer))
  }

  function AfterPoke(s: State, messages: seq<Message>, now: nat): Option<State> {
    var _ :- Require(|messages| == s.bar);
    var _ :- Require(ValidMessages(s, messages));
    if |messages| == 0 then
      None
    else
      Some(s.(val := messages[|messages| / 2].val % L.UINT128, age := now % L.UINT32))
  }

  // ---------- Signers ----------

  function LiftOne(s: State, u: Underlying, signer: Address): Option<State> {
    var _ :- Require(u.Orcl(signer) == 1);
    var _ :- Require(s.Slot(GetSignerId(signer)) == 0);
    Some(s.(orcl := s.orcl + {signer}, slots := s.slots[GetSignerId(signer) := signer]))
  }

  function DropOne(s: State, u: Underlying, signer: Address): Option<State> {
    var _ :- Require(u.Orcl(signer) == 0);
    var _ :- Require(signer in s.orcl);
    Some(s.(orcl := s.orcl - {signer}, slots := s.slots[GetSignerId(signer) := 0]))
  }

  function AfterLift(s: State, u: Underlying, signers: seq<Address>): Option<State>
    decreases |signers|
  {
    if signers == [] then Some(s) else var s' :- LiftOne(s, u, signers[0]); AfterLift(s', u, signers[1..])
  }

  function AfterDrop(s: State, u: Underlying, signers: seq<Address>): Option<State>
    decreases |signers|
  {
    if signers == [] then Some(s) else var s' :- DropOne(s, u, signers[0]); AfterDrop(s', u, signers[1..])
  }

  function AfterSetBar(s: State, u: Underlying): State {
    s.(bar := u.bar)
  }

  /** The bitmaps of signer ids to add and to remove, as sets, and whether the bar differs. */
  function Differences(s: State, u: Underlying): (set<SignerId>, set<SignerId>, bool) {
    var toAdd := set i: SignerId | i < 256 && u.Slot(i) != 0 && s.Slot(i) != u.Slot(i);
    var toRemove := set i: SignerId | i < 256 && s.Slot(i) != 0 && s.Slot(i) != u.Slot(i);
    (toAdd, toRemove, s.bar != u.bar)
  }

  class P1MirrorOracle {
    var val: L.Uint128
    var age: L.Uint32
    var bar: nat
    var orcl: set<Address>
    var slots: map<SignerId, Address>

    function Abs(): State
      reads this
    {
      State(val, age, bar, orcl, slots)
    }

    constructor ()
      ensures Abs() == State(0, 0, 0, {}, map[])
      ensures MirrorInv(Abs())
    {
      val, age, bar := 0, 0, 0;
      orcl, slots := {}, map[];
    }

    method Poke(messages: seq<Message>, now: nat) returns (ok: bool)
      modifies this
      ensures ok == AfterPoke(old(Abs()), messages, now).Some?
      ensures Abs() == if ok then AfterPoke(old(Abs()), messages, now).value else old(Abs())
    {
      if |messages| != bar {
        return false;
      }
      var bloom: set<SignerId> := {};
      var last := 0;
      for i := 0 to |messages|
        invariant forall k :: 0 <= k < i ==> messages[k].val <= last
        invariant last == if i == 0 then 0 else messages[i - 1].val
        invariant forall id :: id in bloom <==> exists k :: 0 <= k < i && GetSignerId(messages[k].signer) == id
        invariant ValidMessages(Abs(), messages[..i])
      {
        var m := messages[i];
        var signerId := GetSignerId(m.signer);
        if m.signer !in orcl || m.age <= age {
          return false;
        }
        if m.val < last {
          assert i > 0 && messages[i - 1].val > messages[i].val;
          return false;
        }
        if signerId in bloom {
          ghost var k :| 0 <= k < i && GetSignerId(messages[k].signer) == signerId;
          return false;
        }
        last := m.val;
        bloom := bloom + {signerId};
        assert messages[..i + 1] == messages[..i] + [m];
      }
      assert messages[..|messages|] == messages;
      if |messages| == 0 {
        return false;
      }
      val := messages[|messages| / 2].val % L.UINT128;
      age := now % L.UINT32;
      return true;
    }

    method Lift(u: Underlying, signers: seq<Address>) returns (ok: bool)
      modifies this
      ensures ok == AfterLift(old(Abs()), u, signers).Some?
      ensures Abs() == if ok then AfterLift(old(Abs()), u, signers).value else old(Abs())
    {
      var savedOrcl, savedSlots := orcl, slots;
      for i := 0 to |signers|
        invariant AfterLift(old(Abs()), u, signers) == AfterLift(Abs(), u, signers[i..])
        invariant Abs() == old(Abs()).(orcl := orcl, slots := slots)
      {
        assert signers[i..][1..] == signers[i + 1..];
        var signer := signers[i];
        var signerId := GetSignerId(signer);
        if u.Orcl(signer) != 1 || Abs().Slot(signerId) != 0 {
          orcl, slots := savedOrcl, savedSlots;
          return false;
        }
        orcl := orcl + {signer};
        slots := slots[signerId := signer];
      }
      return true;
    }

    method Drop(u: Underlying, signers: seq<Address>) returns (ok: bool)
      modifies this
      ensures ok == AfterDrop(old(Abs()), u, signers).Some?
      ensures Abs() == if ok then AfterDrop(old(Abs()), u, signers).value else old(Abs())
    {
      var savedOrcl, savedSlots := orcl, slots;
      for i := 0 to |signers|
        invariant AfterDrop(old(Abs()), u, signers) == AfterDrop(Abs(), u, signers[i..])
        invariant Abs() == old(Abs()).(orcl := orcl, slots := slots)
      {
        assert signers[i..][1..] == signers[i + 1..];
        var signer := signers[i];
        if u.Orcl(signer) != 0 || signer !in orcl {
          orcl, slots := savedOrcl, savedSlots;
          return false;
        }
        orcl := orcl - {signer};
        slots := slots[GetSignerId(signer) := 0];
      }
      return true;
    }

    method SetBar(u: Underlying)
      modifies this
      ensures Abs() == old(Abs()).(bar := u.bar)
    {
      bar := u.bar;
    }

    method CheckSynced(u: Underlying)
      returns (signersToAdd: set<SignerId>, signersToRemove: set<SignerId>, barNeedsUpdate: bool)
      ensures (signersToAdd, signersToRemove, barNeedsUpdate) == Differences(Abs(), u)
    {
      signersToAdd, signersToRemove := {}, {};
      barNeedsUpdate := bar != u.bar;
      for i := 0 to 256
        invariant forall k: SignerId :: k in signersToAdd <==> (k < i && u.Slot(k) != 0 && Abs().Slot(k) != u.Slot(k))
        invariant forall k: SignerId ::
          k in signersToRemove <==> (k < i && Abs().Slot(k) != 0 && Abs().Slot(k) != u.Slot(k))
      {
        var ours, theirs := Abs().Slot(i), u.Slot(i);
        if ours == 0 {
          if theirs != 0 {
            signersToAdd := signersToAdd + {i};
          }
        } else {
          if theirs == 0 {
            signersToRemove := signersToRemove + {i};
          } else if ours != theirs {
            signersToAdd := signersToAdd + {i};
            signersToRemove := signersToRemove + {i};
          }
        }
      }
      assert signersToAdd == Differences(Abs(), u).0;
      assert signersToRemove == Differences(Abs(), u).1;
    }
  }

  // ---------- Robustness of the median ----------

  lemma MessagesFromDifferentSigners(s: State, messages: seq<Message>, i: nat, j: nat)
    requires ValidMessages(s, messages) && i < j < |messages|
    ensures messages[i].signer != messages[j].signer
  {
  }

  /** More messages in a stretch than faulty signers: one of them is by a signer who is not faulty. */
  lemma {:induction false} HonestInStretch(messages: seq<Message>, lo: nat, hi: nat, faulty: set<Address>)
    returns (i: nat)
    requires lo <= hi <= |messages| && |faulty| < hi - lo
    requires forall i, j :: 0 <= i < j < |messages| ==> messages[i].signer != messages[j].signer
    ensures lo <= i < hi && messages[i].signer !in faulty
    decreases hi - lo
  {
    if messages[lo].signer !in faulty {
      i := lo;
    } else {
      i := HonestInStretch(messages, lo + 1, hi, faulty - {messages[lo].signer});
    }
  }

  /**
   With fewer faulty signers than messages from the median up (at most k of 2k + 1), the stored value
   lies between two values signed by authorized signers who are not faulty. What a faulty signer signs is
   arbitrary: only the values of the others have to fit the 128 bits to which the stored value is cut.
   */
  lemma MedianIsRobust(s: State, messages: seq<Message>, now: nat, faulty: set<Address>) returns (low: nat, high: nat)
    requires AfterPoke(s, messages, now).Some?
    requires |faulty| < |messages| - |messages| / 2
    requires forall i :: 0 <= i < |messages| && messages[i].signer !in faulty ==> messages[i].val < L.UINT128
    ensures forall i, j :: 0 <= i < j < |messages| ==> messages[i].signer != messages[j].signer
    ensures low < |messages| && messages[low].signer in s.orcl - faulty
    ensures high < |messages| && messages[high].signer in s.orcl - faulty
    ensures messages[low].val <= AfterPoke(s, messages, now).value.val <= messages[high].val
  {
    forall i, j | 0 <= i < j < |messages| ensures messages[i].signer != messages[j].signer {
      MessagesFromDifferentSigners(s, messages, i, j);
    }
    var median := |messages| / 2;
    low := HonestInStretch(messages, 0, median + 1, faulty);
    high := HonestInStretch(messages, median, |messages|, faulty);
  }

  /** The cast to 128 bits keeps the middle value exactly when it fits. */
  lemma StoredValueIsMiddle(s: State, messages: seq<Message>, now: nat)
    requires AfterPoke(s, messages, now).Some?
    ensures AfterPoke(s, messages, now).value.val == messages[|messages| / 2].val
      <==> messages[|messages| / 2].val < L.UINT128
  {
  }

  /**
   Exactly which lists are accepted: as many messages as the bar asks for, and at least one; by signers who are
   authorized and have different first bytes; each newer than the last update; and ordered by value.
   */
  lemma PokeIsAcceptedExactly(s: State, messages: seq<Message>, now: nat)
    ensures AfterPoke(s, messages, now).Some? <==>
      && 0 < s.bar == |messages|
      && (forall i :: 0 <= i < |messages| ==> messages[i].signer in s.orcl && s.age < messages[i].age)
      && (forall i, j :: 0 <= i < j < |messages| ==>
           messages[i].val <= messages[j].val
           && messages[i].signer / ID_SHIFT != messages[j].signer / ID_SHIFT)
  {
  }

  /** After an update, no message that was signed before it is accepted again. */
  lemma NoReplay(s: State, messages: seq<Message>, now: L.Uint32, later: seq<Message>, laterNow: nat, i: nat)
    requires AfterPoke(s, messages, now).Some?
    requires i < |later| && later[i].age <= now
    ensures AfterPoke(AfterPoke(s, messages, now).value, later, laterNow).None?
  {
  }

  // ---------- The signer tables ----------

  /** A signer is authorized exactly if it is registered under its own id. */
  ghost predicate MirrorInv(s: State) {
    && (forall a: Address :: a in s.orcl <==> (a != 0 && s.Slot(GetSignerId(a)) == a))
    && (forall i: SignerId :: s.Slot(i) != 0 ==> GetSignerId(s.Slot(i)) == i)
  }

  ghost predicate UnderlyingInv(u: Underlying) {
    && (forall a: Address :: u.Orcl(a) == if a != 0 && u.Slot(GetSignerId(a)) == a then 1 else 0)
    && (forall i: SignerId :: u.Slot(i) != 0 ==> GetSignerId(u.Slot(i)) == i)
  }

  /** The zero address must not be lifted: the mirror relies on the underlying oracle for that. */
  lemma LiftOneKeepsInv(s: State, u: Underlying, signer: Address)
    requires MirrorInv(s)
    requires LiftOne(s, u, signer).Some?
    ensures MirrorInv(LiftOne(s, u, signer).value) <==> signer != 0
    ensures forall i: SignerId ::
      LiftOne(s, u, signer).value.Slot(i) == if i == GetSignerId(signer) then signer else s.Slot(i)
  {
    var s' := LiftOne(s, u, signer).value;
    forall i: SignerId ensures s'.Slot(i) == if i == GetSignerId(signer) then signer else s.Slot(i) {
    }
    forall i: SignerId | s'.Slot(i) != 0 ensures GetSignerId(s'.Slot(i)) == i {
      assert i == GetSignerId(signer) || s'.Slot(i) == s.Slot(i);
    }
    assert signer in s'.orcl;
  }

  lemma {:induction false} LiftKeepsInv(s: State, u: Underlying, signers: seq<Address>)
    requires MirrorInv(s) && 0 !in signers
    requires AfterLift(s, u, signers).Some?
    ensures MirrorInv(AfterLift(s, u, signers).value)
    decreases |signers|
  {
    if signers != [] {
      LiftOneKeepsInv(s, u, signers[0]);
      LiftKeepsInv(LiftOne(s, u, signers[0]).value, u, signers[1..]);
    }
  }

  lemma {:induction false} DropKeepsInv(s: State, u: Underlying, signers: seq<Address>)
    requires MirrorInv(s)
    requires AfterDrop(s, u, signers).Some?
    ensures MirrorInv(AfterDrop(s, u, signers).value)
    decreases |signers|
  {
    if signers != [] {
      DropOneKeepsInv(s, u, signers[0]);
      DropKeepsInv(DropOne(s, u, signers[0]).value, u, signers[1..]);
    }
  }

  lemma DropOneKeepsInv(s: State, u: Underlying, signer: Address)
    requires MirrorInv(s)
    requires DropOne(s, u, signer).Some?
    ensures MirrorInv(DropOne(s, u, signer).value)
    ensures forall i: SignerId ::
      DropOne(s, u, signer).value.Slot(i) == if i == GetSignerId(signer) then 0 else s.Slot(i)
  {
    var s' := DropOne(s, u, signer).value;
    forall i: SignerId ensures s'.Slot(i) == if i == GetSignerId(signer) then 0 else s.Slot(i) {
    }
    forall i: SignerId | s'.Slot(i) != 0 ensures GetSignerId(s'.Slot(i)) == i {
      assert i == GetSignerId(signer) || s'.Slot(i) == s.Slot(i);
    }
  }

  datatype Event =
    | PokeEvent(messages: seq<Message>, now: nat)
    | LiftEvent(u: Underlying, signers: seq<Address>)
    | DropEvent(u: Underlying, signers: seq<Address>)
    | SetBarEvent(u: Underlying)

  function TryEvent(s: State, e: Event): Option<State> {
    match e
    case PokeEvent(messages, now) => AfterPoke(s, messages, now)
    case LiftEvent(u, signers) => AfterLift(s, u, signers)
    case DropEvent(u, signers) => AfterDrop(s, u, signers)
    case SetBarEvent(u) => Some(AfterSetBar(s, u))
  }

  function Run(s: State, events: seq<Event>): State
    decreases |events|
  {
    if events == [] then s
    else Run(match TryEvent(s, events[0]) case Some(s') => s' case None => s, events[1..])
  }

  /** In every reachable state, as long as the zero address is never lifted. */
  lemma {:induction false} RunKeepsInv(s: State, events: seq<Event>)
    requires MirrorInv(s)
    requires forall i :: 0 <= i < |events| && events[i].LiftEvent? ==> 0 !in events[i].signers
    ensures MirrorInv(Run(s, events))
    decreases |events|
  {
    if events != [] {
      match events[0] {
        case LiftEvent(u, signers) => if AfterLift(s, u, signers).Some? { LiftKeepsInv(s, u, signers); }
        case DropEvent(u, signers) => if AfterDrop(s, u, signers).Some? { DropKeepsInv(s, u, signers); }
        case PokeEvent(_, _) => SameTables(s, TryEvent(s, events[0]));
        case SetBarEvent(_) => SameTables(s, TryEvent(s, events[0]));
      }
      RunKeepsInv(match TryEvent(s, events[0]) case Some(s') => s' case None => s, events[1..]);
    }
  }

  lemma SameTables(s: State, next: Option<State>)
    requires MirrorInv(s)
    requires next.Some? ==> next.value.orcl == s.orcl && next.value.slots == s.slots
    ensures next.Some? ==> MirrorInv(next.value)
  {
    if next.Some? {
      assert forall i: SignerId :: next.value.Slot(i) == s.Slot(i);
    }
  }

  /** The ids of the list's signers are free and different; only the zero address leaves its slot free. */
  ghost predicate HaveFreeSlots(s: State, signers: seq<Address>) {
    && (forall i :: 0 <= i < |signers| ==> s.Slot(GetSignerId(signers[i])) == 0)
    && (forall i, j :: 0 <= i < j < |signers| && GetSignerId(signers[i]) == GetSignerId(signers[j]) ==>
         signers[i] == 0)
  }

  /** Exactly which lists can be lifted: those that the underlying oracle authorizes and that have free slots. */
  lemma {:induction false} LiftIsAcceptedExactly(s: State, u: Underlying, signers: seq<Address>)
    ensures AfterLift(s, u, signers).Some? <==>
      HaveFreeSlots(s, signers) && forall a :: a in signers ==> u.Orcl(a) == 1
    ensures AfterLift(s, u, signers).Some? ==>
      forall a :: a in AfterLift(s, u, signers).value.orcl <==> a in s.orcl || a in signers
    decreases |signers|
  {
    if signers != [] {
      var rest := signers[1..];
      assert forall a :: a in signers <==> a == signers[0] || a in rest;
      if LiftOne(s, u, signers[0]).Some? {
        var s' := LiftOne(s, u, signers[0]).value;
        LiftIsAcceptedExactly(s', u, rest);
        FreeSlotsOfRest(s, s', signers);
      }
    }
  }

  lemma FreeSlotsOfRest(s: State, s': State, signers: seq<Address>)
    requires signers != [] && s.Slot(GetSignerId(signers[0])) == 0
    requires s'.slots == s.slots[GetSignerId(signers[0]) := signers[0]]
    ensures HaveFreeSlots(s, signers) <==> HaveFreeSlots(s', signers[1..])
  {
    var rest := signers[1..];
    assert forall i :: 0 <= i < |rest| ==> rest[i] == signers[i + 1];
    assert forall i :: 1 <= i < |signers| ==> signers[i] == rest[i - 1];
    assert forall i: SignerId :: s'.Slot(i) == if i == GetSignerId(signers[0]) then signers[0] else s.Slot(i);
  }

  /** Exactly which lists can be dropped: each a signer here, once, that the underlying oracle does not authorize. */
  lemma {:induction false} DropIsAcceptedExactly(s: State, u: Underlying, signers: seq<Address>)
    ensures AfterDrop(s, u, signers).Some? <==>
      NoRepeats(signers) && forall a :: a in signers ==> a in s.orcl && u.Orcl(a) == 0
    ensures AfterDrop(s, u, signers).Some? ==>
      forall a :: a in AfterDrop(s, u, signers).value.orcl <==> a in s.orcl && a !in signers
    decreases |signers|
  {
    if signers != [] {
      var first, rest := signers[0], signers[1..];
      assert forall a :: a in signers <==> a == first || a in rest;
      assert NoRepeats(signers) <==> first !in rest && NoRepeats(rest) by {
        assert forall i :: 1 <= i < |signers| ==> signers[i] == rest[i - 1];
        assert forall i :: 0 <= i < |rest| ==> rest[i] == signers[i + 1];
      }
      if DropOne(s, u, first).Some? {
        DropIsAcceptedExactly(DropOne(s, u, first).value, u, rest);
      }
    }
  }

  /** Event i has lifted the signer, when the underlying oracle authorized it, and no event since has dropped it. */
  ghost predicate IsLiftedAt(s: State, events: seq<Event>, i: nat, a: Address) {
    && i < |events| && events[i].LiftEvent? && a in events[i].signers && events[i].u.Orcl(a) == 1
    && TryEvent(Run(s, events[..i]), events[i]).Some?
    && forall k :: i < k < |events| ==> !Drops(s, events, k, a)
  }

  ghost predicate Drops(s: State, events: seq<Event>, k: nat, a: Address)
    requires k < |events|
  {
    events[k].DropEvent? && a in events[k].signers && TryEvent(Run(s, events[..k]), events[k]).Some?
  }

  lemma {:induction false} RunLast(s: State, events: seq<Event>)
    requires events != []
    ensures var before := Run(s, events[..|events| - 1]);
      Run(s, events) == match TryEvent(before, events[|events| - 1]) case Some(s') => s' case None => before
    decreases |events|
  {
    if |events| > 1 {
      RunLast(match TryEvent(s, events[0]) case Some(s') => s' case None => s, events[1..]);
      assert events[..|events| - 1][1..] == events[1..][..|events| - 2];
    }
  }

  lemma LiftedBeforeLast(s: State, events: seq<Event>, a: Address)
    requires events != []
    ensures var n := |events| - 1;
      forall i: nat :: i < n ==>
        (IsLiftedAt(s, events, i, a) <==> IsLiftedAt(s, events[..n], i, a) && !Drops(s, events, n, a))
  {
    var n := |events| - 1;
    assert forall i: nat :: i <= n ==> events[..n][..i] == events[..i];
    forall i: nat | i < n
      ensures IsLiftedAt(s, events, i, a) <==> IsLiftedAt(s, events[..n], i, a) && !Drops(s, events, n, a)
    {
      assert forall k: nat :: k < n ==> (Drops(s, events[..n], k, a) <==> Drops(s, events, k, a));
    }
  }

  /** Over any run, the signers are those that were lifted with the underlying oracle's authority and not dropped. */
  lemma {:induction false} SignersAreLifted(s: State, events: seq<Event>, a: Address)
    requires a !in s.orcl
    ensures a in Run(s, events).orcl <==> exists i: nat :: IsLiftedAt(s, events, i, a)
    decreases |events|
  {
    if events != [] {
      var n := |events| - 1;
      var before, e := Run(s, events[..n]), events[n];
      RunLast(s, events);
      SignersAreLifted(s, events[..n], a);
      LiftedBeforeLast(s, events, a);
      if e.LiftEvent? {
        LiftIsAcceptedExactly(before, e.u, e.signers);
        assert TryEvent(before, e).Some? && a in e.signers ==> IsLiftedAt(s, events, n, a);
      } else if e.DropEvent? {
        DropIsAcceptedExactly(before, e.u, e.signers);
      }
    }
  }

  /** Dropping registered signers that the underlying oracle does not know empties their slots. */
  lemma {:induction false} DropEffect(s: State, u: Underlying, signers: seq<Address>)
    requires MirrorInv(s) && NoRepeats(signers)
    requires forall a :: a in signers ==> a in s.orcl && u.Orcl(a) == 0
    ensures AfterDrop(s, u, signers).Some?
    ensures var s' := AfterDrop(s, u, signers).value;
      && MirrorInv(s') && s'.bar == s.bar
      && forall i: SignerId :: s'.Slot(i) == if s.Slot(i) in signers then 0 else s.Slot(i)
    decreases |signers|
  {
    if signers != [] {
      var a, rest := signers[0], signers[1..];
      var s1 := DropOne(s, u, a).value;
      DropOneKeepsInv(s, u, a);
      forall b | b in rest ensures b in s1.orcl && u.Orcl(b) == 0 && b != a {
        var k :| 0 <= k < |rest| && rest[k] == b;
        assert signers[k + 1] == b;
      }
      DropEffect(s1, u, rest);
      assert forall x :: x in signers <==> x == a || x in rest;
      assert 0 !in s.orcl && 0 !in signers;
    }
  }

  /** Lifting signers of the underlying oracle into empty slots fills those slots. */
  lemma {:induction false} LiftEffect(s: State, u: Underlying, signers: seq<Address>)
    requires MirrorInv(s) && UnderlyingInv(u) && NoRepeats(signers)
    requires forall a :: a in signers ==> u.Orcl(a) == 1 && s.Slot(GetSignerId(a)) == 0
    ensures AfterLift(s, u, signers).Some?
    ensures var s' := AfterLift(s, u, signers).value;
      && MirrorInv(s') && s'.bar == s.bar
      && forall i: SignerId :: s'.Slot(i) == if u.Slot(i) != 0 && u.Slot(i) in signers then u.Slot(i) else s.Slot(i)
    decreases |signers|
  {
    if signers != [] {
      var a, rest := signers[0], signers[1..];
      var s1 := LiftOne(s, u, a).value;
      LiftOneKeepsInv(s, u, a);
      forall b | b in rest ensures u.Orcl(b) == 1 && s1.Slot(GetSignerId(b)) == 0 {
        var k :| 0 <= k < |rest| && rest[k] == b;
        assert signers[k + 1] == b && b != a;
      }
      LiftEffect(s1, u, rest);
      assert forall x :: x in signers <==> x == a || x in rest;
    }
  }

  /** The list names, once each, the signers that a table has under the reported ids. */
  ghost predicate Enumerates(signers: seq<Address>, ids: set<SignerId>, slot: SignerId -> Address) {
    && NoRepeats(signers)
    && forall a :: a in signers <==> exists i :: i in ids && slot(i) == a
  }

  /** Dropping what checkSynced reports, then lifting what it reports, then setBar, brings the mirror in sync. */
  lemma SyncConverges(s: State, u: Underlying, drops: seq<Address>, lifts: seq<Address>)
    requires MirrorInv(s) && UnderlyingInv(u)
    requires Enumerates(drops, Differences(s, u).1, (i: SignerId) => s.Slot(i))
    requires Enumerates(lifts, Differences(s, u).0, (i: SignerId) => u.Slot(i))
    ensures AfterDrop(s, u, drops).Some?
    ensures AfterLift(AfterDrop(s, u, drops).value, u, lifts).Some?
    ensures Differences(AfterSetBar(AfterLift(AfterDrop(s, u, drops).value, u, lifts).value, u), u) == ({}, {}, false)
  {
    var (toAdd, toRemove, _) := Differences(s, u);
    forall a | a in drops ensures a in s.orcl && u.Orcl(a) == 0 {
      var i :| i in toRemove && s.Slot(i) == a;
    }
    DropEffect(s, u, drops);
    var s1 := AfterDrop(s, u, drops).value;
    forall a | a in lifts ensures u.Orcl(a) == 1 && s1.Slot(GetSignerId(a)) == 0 {
      var i :| i in toAdd && u.Slot(i) == a;
      assert s.Slot(i) != 0 ==> i in toRemove;
    }
    LiftEffect(s1, u, lifts);
    var s2 := AfterLift(s1, u, lifts).value;
    forall i: SignerId ensures s2.Slot(i) == u.Slot(i) {
      if s.Slot(i) == u.Slot(i) {
        KeptSlot(s, u, drops, lifts, i);
      } else {
        assert s.Slot(i) != 0 ==> i in toRemove;
        assert u.Slot(i) != 0 ==> i in toAdd;
      }
    }
    var s3 := AfterSetBar(s2, u);
    assert forall i: SignerId :: s3.Slot(i) == s2.Slot(i);
    assert Differences(s3, u).0 == {} && Differences(s3, u).1 == {};
  }

  /** A slot that agrees already is neither dropped nor lifted. */
  lemma KeptSlot(s: State, u: Underlying, drops: seq<Address>, lifts: seq<Address>, i: SignerId)
    requires MirrorInv(s) && UnderlyingInv(u)
    requires Enumerates(drops, Differences(s, u).1, (i: SignerId) => s.Slot(i))
    requires s.Slot(i) == u.Slot(i)
    ensures s.Slot(i) != 0 ==> s.Slot(i) !in drops
  {
  }
}
