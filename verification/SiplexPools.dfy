/** SIPLEX's pools in memory, in step with the machine of leases, interrupts and executors. */
module SiplexPools {
  import opened Basics
  import opened ShotQueues
  import S = Shots

  /** All pools, sabots and shots, in memory. Every method is one step of one actor, and is given the state
      of the machine that memory is in. */
  class Siplex {
    const pools: seq<Queue>
    const sabots: seq<Sabot>
    const shots: seq<Shot>

    constructor (pools: seq<Queue>, sabots: seq<Sabot>, shots: seq<Shot>)
      ensures this.pools == pools && this.sabots == sabots && this.shots == shots
    {
      this.pools, this.sabots, this.shots := pools, sabots, shots;
    }

    /** These are numbers of sabots. */
    ghost predicate Numbers(q: seq<nat>) { forall i :: 0 <= i < |q| ==> q[i] < |sabots| }

    ghost predicate Sized(s: S.State) {
      && |pools| == |s.pools| == 6 && Distinct(pools) && Distinct(sabots) && Distinct(shots)
      && |sabots| == |s.place| == |s.attached| && |shots| == |s.cards|
      && forall k :: 0 <= k < 6 ==> Numbers(s.pools[k])
    }

    /** The sabots of these numbers. */
    ghost function Named(q: seq<nat>): (r: seq<Sabot>)
      requires Numbers(q)
      ensures |r| == |q| && (forall i :: 0 <= i < |q| ==> r[i] == sabots[q[i]])
      ensures forall x :: x in r ==> x in sabots
    {
      seq(|q|, i requires 0 <= i < |q| => sabots[q[i]])
    }

    /** Pool k in memory is pool k of the machine. */
    ghost predicate PoolIs(s: S.State, k: nat)
      requires Sized(s) && k < 6
      reads pools[k], sabots`next
    {
      pools[k].Holds(Named(s.pools[k]))
    }

    /** So are the shots, and which sabot each is on. */
    ghost predicate ShotsAre(s: S.State)
      requires Sized(s)
      reads sabots`shot, shots
    {
      && (forall i :: 0 <= i < |sabots| && s.attached[i].Some? ==>
            s.attached[i].value < |shots| && sabots[i].shot == shots[s.attached[i].value])
      && (forall c :: 0 <= c < |shots| ==> S.Card(shots[c].status, shots[c].intent) == s.cards[c])
    }

    ghost predicate Matches(s: S.State)
      reads pools, sabots, shots
    {
      Sized(s) && ShotsAre(s) && forall k :: 0 <= k < 6 ==> PoolIs(s, k)
    }

    /** The sabot in an actor's hand. */
    ghost function Held(s: S.State, a: nat): Sabot?
    {
      if a < |s.hands| && s.hands[a] != S.Empty && s.hands[a].s < |sabots| then sabots[s.hands[a].s] else null
    }

    lemma PoolAt(s: S.State, k: nat)
      requires Matches(s) && k < 6
      ensures pools[k].Holds(Named(s.pools[k]))
    {
      assert PoolIs(s, k);
    }

    /** pop_shot on pool k. */
    method Take(k: nat, ghost s: S.State, ghost a: nat, ghost hand: nat -> S.Hand) returns (sabot: Sabot?)
      requires Matches(s) && S.Inv(s) && a < |s.hands| && s.hands[a] == S.Empty && k < 6
      requires forall id :: hand(id) != S.Empty && hand(id).s == id
      modifies pools[k]
      ensures Matches(S.Pop(s, a, k, hand)) && sabot == Held(S.Pop(s, a, k, hand), a)
    {
      PoolAt(s, k);
      assert Numbers(s.pools[k]);
      ghost var t := S.Pop(s, a, k, hand);
      sabot := pools[k].Pop(Named(s.pools[k]));
      assert s.pools[k] != [] ==> Named(s.pools[k])[1..] == Named(t.pools[k]);
      forall j | 0 <= j < 6 ensures PoolIs(t, j) {
        assert PoolIs(s, j) || j == k;
        assert j != k ==> pools[j] != pools[k];
      }
    }

    /** Sabots of other pools, or in a hand, are not in this one. */
    lemma ApartInMemory(s: S.State, j: nat, k: nat, a: nat)
      requires Sized(s) && S.Inv(s) && j < 6 && k < 6
      ensures j != k ==> forall x :: x in Named(s.pools[j]) ==> x !in Named(s.pools[k])
      ensures Held(s, a) != null ==> Held(s, a) !in Named(s.pools[j])
    {
      assert S.PoolOk(s, j) && S.PoolOk(s, k);
      forall m, n | 0 <= m < |s.pools[j]| && 0 <= n < |s.pools[k]| && j != k
        ensures Named(s.pools[j])[m] != Named(s.pools[k])[n]
      {
        assert s.pools[j][m] in s.pools[j] && s.pools[k][n] in s.pools[k];
      }
      if Held(s, a) != null {
        assert S.HandOk(s, a);
        forall m | 0 <= m < |s.pools[j]| ensures Named(s.pools[j])[m] != Held(s, a) {
          assert s.pools[j][m] in s.pools[j];
        }
      }
    }

    /** put_shot on the pool that the actor's sabot goes to. */
    method PutBack(sabot: Sabot, k: nat, ghost s: S.State, ghost a: nat)
      requires Matches(s) && S.Inv(s) && S.Enabled(s, S.Put(a)) && sabot == Held(s, a) && s.hands[a].k == k
      modifies pools[k], sabots`next
      ensures Matches(S.Next(s, S.Put(a)))
    {
      hide Chain, S.Inv;
      PoolAt(s, k);
      ApartInMemory(s, k, k, a);
      ghost var q, t := Named(s.pools[k]), S.Next(s, S.Put(a));
      pools[k].TailInside(q);
      pools[k].Put(sabot, q);
      assert Numbers(t.pools[k]) && Named(t.pools[k]) == q + [sabot];
      forall j | 0 <= j < 6 ensures PoolIs(t, j) {
        if j != k {
          ApartInMemory(s, j, k, a);
          assert pools[j] != pools[k] && old(PoolIs(s, j));
        }
      }
    }

    /** The shot of the actor's sabot is given a status and an intent. */
    method MarkShot(sabot: Sabot, status: Byte, intent: Byte, ghost s: S.State, ghost a: nat, ghost hand: S.Hand)
      requires Matches(s) && S.Inv(s) && a < |s.hands| && s.hands[a] != S.Empty && S.Carries(s, s.hands[a].s)
      requires sabot == Held(s, a) && sabot.shot != null
      modifies sabot.shot
      ensures Matches(S.Mark(s, a, S.Card(status, intent), hand))
    {
      sabot.shot.status, sabot.shot.intent := status, intent;
      ghost var t := S.Mark(s, a, S.Card(status, intent), hand);
      forall j | 0 <= j < 6 ensures PoolIs(t, j) {
        assert old(PoolIs(s, j));
      }
    }

    /** The shot on an actor's sabot is the machine's card. */
    lemma ShotIs(s: S.State, a: nat)
      requires Matches(s) && S.Inv(s) && Held(s, a) != null
      ensures S.Carries(s, s.hands[a].s) && Held(s, a).shot != null
      ensures S.CardOf(s, s.hands[a].s) == S.Card(Held(s, a).shot.status, Held(s, a).shot.intent)
    {
      assert S.HandOk(s, a);
      assert S.SabotOk(s, s.hands[a].s);
    }

    // ------------------------------------------------------------------- The steps of the machine

    /** shotlease up to the magazine, or an interrupt message's shot: refused, or a sabot to be primed if the
        magazine has one. */
    method Draw(order: S.Order, ghost s: S.State, ghost a: nat) returns (sabot: Sabot?, to: nat, intent: Byte)
      requires Matches(s) && S.Inv(s) && S.Enabled(s, S.Draw(a, order))
      modifies pools[S.MAGAZINE]
      ensures var t := S.Next(s, S.Draw(a, order));
              Matches(t) && sabot == Held(t, a) && (sabot != null ==> t.hands[a] == S.Drawn(t.hands[a].s, to, intent))
    {
      sabot, to, intent := null, S.INT, S.SHOT_CMD;
      match order {
        case Interrupt =>
        case Lease(wanted) =>
          var route := S.Route(wanted);
          if wanted > S.SHOT_PER || route == None {
            return;
          }
          to, intent := route.value, wanted;
      }
      sabot := Take(S.MAGAZINE, s, a, (id: nat) => S.Drawn(id, to, intent));
    }

    /** The drawn shot is made hot with its intent. */
    method Prime(sabot: Sabot, intent: Byte, ghost s: S.State, ghost a: nat)
      requires Matches(s) && S.Inv(s) && S.Enabled(s, S.Prime(a)) && sabot == Held(s, a) && s.hands[a].intent == intent
      modifies sabot.shot
      ensures Matches(S.Next(s, S.Prime(a)))
    {
      ShotIs(s, a);
      MarkShot(sabot, S.SHOT_HOT, intent, s, a, S.Back(s.hands[a].s, s.hands[a].k));
    }

    /** The executor looks into one feeder. */
    method Feed(k: nat, ghost s: S.State, ghost a: nat) returns (sabot: Sabot?)
      requires Matches(s) && S.Inv(s) && S.Enabled(s, S.Feed(a, k))
      modifies pools[k]
      ensures var t := S.Next(s, S.Feed(a, k)); Matches(t) && sabot == Held(t, a)
    {
      sabot := Take(k, s, a, (id: nat) => S.Got(id, k));
    }

    /** The executor fires a hot shot and recycles any other. */
    method Fire(sabot: Sabot, ghost s: S.State, ghost a: nat) returns (fired: bool)
      requires Matches(s) && S.Inv(s) && S.Enabled(s, S.Judge(a)) && sabot == Held(s, a)
      modifies sabot.shot
      ensures Matches(S.Next(s, S.Judge(a))) && (fired <==> S.Next(s, S.Judge(a)).hands[a].Flying?)
    {
      ShotIs(s, a);
      fired := sabot.shot.status % 0x10 == S.SHOT_HOT;
      if fired {
        MarkShot(sabot, S.SHOT_FIR, sabot.shot.intent, s, a, S.Flying(s.hands[a].s, s.hands[a].k));
      } else {
        MarkShot(sabot, S.SHOT_FRE, sabot.shot.intent, s, a, S.Back(s.hands[a].s, S.MAGAZINE));
      }
    }

    /** Where a shot goes when its dispatch has returned: back to its feeder, to the shells, or to the magazine. */
    method Land(sabot: Sabot, k: nat, ghost s: S.State, ghost a: nat) returns (to: nat)
      requires Matches(s) && S.Inv(s) && S.Enabled(s, S.Land(a)) && sabot == Held(s, a) && s.hands[a].k == k
      modifies sabot`shot, sabot.shot
      ensures Matches(S.Next(s, S.Land(a))) && to == S.Next(s, S.Land(a)).hands[a].k
    {
      ShotIs(s, a);
      if sabot.shot.intent % 0x10 == S.SHOT_CYC {
        to := k;
        MarkShot(sabot, S.SHOT_HOT, sabot.shot.intent, s, a, S.Back(s.hands[a].s, k));
      } else if sabot.shot.intent / S.SHOT_PRV % 2 == 1 {
        to := S.SHELLS;
        S.OnlyHotPublicShotsFly(s, a);
        assert false;
      } else {
        to := S.MAGAZINE;
        MarkShot(sabot, S.SHOT_FRE, sabot.shot.intent, s, a, S.Back(s.hands[a].s, S.MAGAZINE));
      }
    }
  }
}
