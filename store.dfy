/**
  The bot's in-memory database and the handlers that change it: lazy user
  creation, promo provisioning and redemption, referral attribution on
  /start, and the giveaway lifecycle (create, join, finish, delete from the
  archive) with its two public lists.

  Time is the `now` parameter; the random shuffle of the participants is the
  permutation `perm`; the timer that finishes a draw is a call of
  `FinishDraw` by the caller.
*/
module Bot {
  import opened Wrappers
  import opened JsString
  import opened Records
  import opened DrawCommand
  import opened Listing

  datatype PromoError = InvalidRequest | UnknownCode | VipOnly | Exhausted | AlreadyUsed

  /** A successful redemption: the reward and the user's new balance. */
  datatype Redeemed = Redeemed(reward: int, balance: int)

  datatype JoinError = DrawNotFound | AlreadyJoined

  datatype DeleteError = BadCommand(reason: CommandError) | StillActive | NotInArchive

  /**
    What finishing a draw reports to the notifier: nothing (the draw was not
    open), "no participants", or the winners with the per-winner amount of a
    money prize.
  */
  datatype FinishOutcome = NotOpen | NoParticipants | Finished(winners: seq<Participant>, money: bool, amountEach: nat)

  /**
    The draw tables: each key is the draw's own id, at most the last id
    issued; open draws are open, archived draws are archived, and no id is
    in both tables.
  */
  ghost predicate DrawsValid(draws: map<int, Draw>, finished: map<int, Draw>, counter: nat) {
    && (forall id :: id in draws ==> 1 <= id <= counter && draws[id].id == id && IsOpen(draws[id]))
    && (forall id :: id in finished ==> 1 <= id <= counter && finished[id].id == id && IsArchived(finished[id]))
    && (forall id :: id in draws ==> id !in finished)
  }

  ghost predicate PromosValid(promos: map<string, Promo>) {
    forall c :: c in promos ==> PromoValid(promos[c])
  }

  /**
    The record /cdraw stores: no participants yet, ending `durationMs` after
    its creation at `now`; it is open whenever the winner count is in range.
  */
  function OpenDraw(id: int, req: DrawRequest, now: int, imageUrl: Option<string>): (d: Draw)
    ensures d.id == id && d.participants == [] && d.endsAt - d.createdAt == req.durationMs
    ensures 1 <= req.winnersCount <= MaxWinners ==> IsOpen(d)
  {
    Draw(id, req.prize, now + req.durationMs, imageUrl, [], false, req.winnersCount, now, None, [])
  }

  /** The archive record of `d`, finished at `now` with winners `ws`. */
  function Archived(d: Draw, ws: seq<Participant>, now: int): (a: Draw)
    ensures a.id == d.id && a.participants == d.participants && a.prize == d.prize
    ensures a.finished && a.finishedAt == Some(now) && a.winners == ws
  {
    d.(finished := true, finishedAt := Some(now), winners := ws)
  }

  /** A new open draw under the next id keeps the tables valid; every earlier id is smaller. */
  lemma CreateKeepsDrawsValid(draws: map<int, Draw>, finished: map<int, Draw>, counter: nat, d: Draw)
    requires DrawsValid(draws, finished, counter)
    requires d.id == counter + 1 && IsOpen(d)
    ensures DrawsValid(draws[d.id := d], finished, counter + 1)
    ensures forall id :: id in draws || id in finished ==> id < d.id
  {
  }

  /** Adding a participant who does not yet take part keeps the tables valid. */
  lemma JoinKeepsDrawsValid(draws: map<int, Draw>, finished: map<int, Draw>, counter: nat, id: int, p: Participant)
    requires DrawsValid(draws, finished, counter)
    requires id in draws && p.uid !in Uids(draws[id].participants)
    ensures DrawsValid(draws[id := draws[id].(participants := draws[id].participants + [p])], finished, counter)
  {
    JoinKeepsUidsUnique(draws[id].participants, p);
  }

  /** Moving an open draw, with its drawn winners, to the archive keeps the tables valid. */
  lemma ArchiveKeepsDrawsValid(draws: map<int, Draw>, finished: map<int, Draw>, counter: nat,
                               id: int, perm: seq<nat>, now: int)
    requires DrawsValid(draws, finished, counter)
    requires id in draws && IsPermutation(perm, |draws[id].participants|)
    ensures var d := draws[id];
      DrawsValid(draws - {id}, finished[id := Archived(d, PickWinners(d.participants, perm, d.winnersCount), now)], counter)
  {
    var d := draws[id];
    var a := Archived(d, PickWinners(d.participants, perm, d.winnersCount), now);
    assert IsOpen(d);
    assert IsArchived(a);
  }

  /** Removing an archive entry keeps the tables valid. */
  lemma DeleteKeepsDrawsValid(draws: map<int, Draw>, finished: map<int, Draw>, counter: nat, id: int)
    requires DrawsValid(draws, finished, counter)
    ensures DrawsValid(draws, finished - {id}, counter)
  {
  }

  /** The code's record after one more use. */
  function UseOnce(p: Promo): (q: Promo)
    ensures q.usedCount == p.usedCount + 1
    ensures q.reward == p.reward && q.maxUses == p.maxUses && q.vipOnly == p.vipOnly
  {
    p.(usedCount := p.usedCount + 1)
  }

  /** The user's record after redeeming code `c` worth `reward`: paid, and the code remembered. */
  function Credited(u: User, c: string, reward: int): (v: User)
    ensures v.balance == u.balance + reward && v.usedPromos == u.usedPromos + [c]
    ensures v.refs == u.refs && v.refBy == u.refBy && v.refEarned == u.refEarned && v.task3Done == u.task3Done
  {
    u.(usedPromos := u.usedPromos + [c], balance := u.balance + reward)
  }

  /**
    A redemption keeps the code's counter within its cap and the user's used
    codes free of repeats, because it happens only below the cap and for a
    code the user has not used.
  */
  lemma RedeemKeepsValid(p: Promo, u: User, c: string)
    requires PromoValid(p) && p.usedCount < p.maxUses
    requires UserValid(u) && c !in u.usedPromos
    ensures PromoValid(UseOnce(p))
    ensures UserValid(Credited(u, c, p.reward))
  {
    var s := u.usedPromos + [c];
    forall i, j | 0 <= i < j < |s| ensures s[i] != s[j] {
      if j == |u.usedPromos| {
        assert s[i] == u.usedPromos[i] && u.usedPromos[i] in u.usedPromos;
      }
    }
  }

  class Store {
    var users: map<string, User>
    var promos: map<string, Promo>
    var draws: map<int, Draw>      // open draws
    var finished: map<int, Draw>   // the archive
    var drawCounter: nat

    /**
      Every id ever issued is at most `drawCounter`; open draws and archived
      draws are disjoint and keep their own invariants; promo counters stay
      within their caps; user records stay consistent.
    */
    ghost predicate Valid()
      reads this
    {
      DrawsValid(draws, finished, drawCounter) && PromosValid(promos) && AllUsersValid(users)
    }

    constructor ()
      ensures Valid()
      ensures users == map[] && promos == map[] && draws == map[] && finished == map[] && drawCounter == 0
    {
      users, promos, draws, finished, drawCounter := map[], map[], map[], map[], 0;
    }

    /** `getUser(uid)`: the user's record, created with a balance of 1000 on first contact. */
    method GetUser(uid: string) returns (u: User)
      requires Valid()
      modifies this
      ensures Valid()
      ensures users == WithUser(old(users), uid) && u == users[uid]
      ensures u == UserOr(old(users), uid)
      ensures promos == old(promos) && draws == old(draws) && finished == old(finished)
      ensures drawCounter == old(drawCounter)
    {
      if uid !in users {
        NewUserValid();
        users := users[uid := NewUser()];
      }
      u := users[uid];
    }

    // -------------------------------------------------------------------------
    // Promo codes

    /**
      /cpromo and /vpromo: store the code, upper-cased, with a fresh usage
      counter, replacing any code already stored under that key.
    */
    method ProvisionPromo(code: string, reward: int, maxUses: int, vipOnly: bool)
      requires Valid()
      modifies this
      ensures Valid()
      ensures promos == old(promos)[ToUpper(code) := Promo(reward, maxUses, 0, vipOnly)]
      ensures users == old(users) && draws == old(draws) && finished == old(finished)
      ensures drawCounter == old(drawCounter)
    {
      promos := promos[ToUpper(code) := Promo(reward, maxUses, 0, vipOnly)];
    }

    /**
      POST /api/promo: normalise the code, then refuse, in this order, an
      empty code or user, an unknown code, a VIP-only code for a non-VIP, a
      code whose uses are exhausted, and a code this user already used.
      Every refusal leaves the store as it was. On success the code's
      counter, the user's balance and the user's used codes each grow by one
      step.
    */
    method RedeemPromo(code: string, userId: string, isVip: bool) returns (r: Result<Redeemed, PromoError>)
      requires Valid()
      modifies this
      ensures Valid()
      ensures draws == old(draws) && finished == old(finished) && drawCounter == old(drawCounter)
      ensures r.Failure? ==> promos == old(promos) && users == old(users)
      ensures var c := NormaliseCode(code);
        && (c == [] || userId == [] ==> r == Failure(InvalidRequest))
        && (c != [] && userId != [] && c !in old(promos) ==> r == Failure(UnknownCode))
        && (c != [] && userId != [] && c in old(promos) ==>
              var p := old(promos)[c];
              var used := UserOr(old(users), userId).usedPromos;
              && (p.vipOnly && !isVip ==> r == Failure(VipOnly))
              && (!(p.vipOnly && !isVip) && p.usedCount >= p.maxUses ==> r == Failure(Exhausted))
              && (!(p.vipOnly && !isVip) && p.usedCount < p.maxUses && c in used ==> r == Failure(AlreadyUsed))
              && (!(p.vipOnly && !isVip) && p.usedCount < p.maxUses && c !in used ==> r.Success?))
      ensures r.Success? ==>
        var c := NormaliseCode(code);
        var p := old(promos)[c];
        var u := UserOr(old(users), userId);
        && c in old(promos) && c !in u.usedPromos && p.usedCount < p.maxUses
        && promos == old(promos)[c := UseOnce(p)]
        && users == old(users)[userId := Credited(u, c, p.reward)]
        && r.value == Redeemed(p.reward, Credited(u, c, p.reward).balance)
    {
      var c := NormaliseCode(code);
      if c == [] || userId == [] {
        return Failure(InvalidRequest);
      }
      if c !in promos {
        return Failure(UnknownCode);
      }
      var p := promos[c];
      if p.vipOnly && !isVip {
        return Failure(VipOnly);
      }
      if p.usedCount >= p.maxUses {
        return Failure(Exhausted);
      }
      var u := GetUser(userId);
      if c in u.usedPromos {
        return Failure(AlreadyUsed);
      }
      RedeemKeepsValid(p, u, c);
      u := Credited(u, c, p.reward);
      OverwriteCreated(old(users), userId, u);
      users := users[userId := u];
      promos := promos[c := UseOnce(p)];
      r := Success(Redeemed(p.reward, u.balance));
    }

    // -------------------------------------------------------------------------
    // Referrals

    /**
      The ledger part of /start: the user is created if new; a payload
      "ref_<inviter>" attributes the user to the inviter unless it is the
      user themself or the user already has a referrer, crediting the
      inviter 1000 (and 2000 more at the third referral, once).
    */
    method Start(uid: string, payload: string, entry: Referral) returns (b: Bonus)
      requires Valid()
      modifies this
      ensures Valid()
      ensures promos == old(promos) && draws == old(draws) && finished == old(finished)
      ensures drawCounter == old(drawCounter)
      ensures !StartsWith(payload, "ref_") ==> users == WithUser(old(users), uid) && b == NoBonus
      ensures StartsWith(payload, "ref_") ==>
        (users, b) == Refer(WithUser(old(users), uid), uid, payload[4..], entry)
    {
      var _ := GetUser(uid);
      b := NoBonus;
      if StartsWith(payload, "ref_") {
        var refUID := payload[4..];
        if refUID != uid && users[uid].refBy.None? {
          ghost var before := users;
          ReferKeepsUsersValid(before, uid, refUID, entry);
          var ru := GetUser(refUID);
          var u := users[uid];
          users := users[uid := u.(refBy := Some(refUID))];
          var rewarded := Rewarded(ru, entry);
          users := users[refUID := rewarded.0];
          b := rewarded.1;
          ReferralWritesAfterCreate(before, uid, refUID, u.(refBy := Some(refUID)), rewarded.0);
        }
      }
    }

    // -------------------------------------------------------------------------
    // Giveaways

    /**
      /cdraw: parse the arguments, take the next id, and store an open draw
      with no participants that ends `durationMs` after `now`. The new id is
      larger than every id issued before.
    */
    method CreateDraw(parts: seq<string>, now: int, imageUrl: Option<string>) returns (r: Result<int, CommandError>)
      requires Valid()
      modifies this
      ensures Valid()
      ensures users == old(users) && promos == old(promos) && finished == old(finished)
      ensures r.Success? <==> |parts| >= 2
      ensures r.Failure? ==> draws == old(draws) && drawCounter == old(drawCounter)
      ensures r.Success? ==>
        var req := ParseDrawCommand(parts).value;
        && r.value == old(drawCounter) + 1 == drawCounter
        && r.value !in old(draws) && r.value !in old(finished)
        && (forall id :: id in old(draws) || id in old(finished) ==> id < r.value)
        && draws == old(draws)[r.value := OpenDraw(r.value, req, now, imageUrl)]
    {
      var req := ParseDrawCommand(parts);
      if req.Failure? {
        return Failure(req.error);
      }
      var id := drawCounter + 1;
      var d := OpenDraw(id, req.value, now, imageUrl);
      CreateKeepsDrawsValid(draws, finished, drawCounter, d);
      drawCounter := id;
      draws := draws[id := d];
      r := Success(id);
    }

    /**
      POST /api/draws/join: refuse a draw that is missing, finished or past
      its end, and a user who already takes part; otherwise append the user
      once and return the new number of participants.
    */
    method JoinDraw(drawId: int, userId: string, username: string, firstName: string, now: int)
      returns (r: Result<nat, JoinError>)
      requires Valid()
      modifies this
      ensures Valid()
      ensures users == old(users) && promos == old(promos) && finished == old(finished)
      ensures drawCounter == old(drawCounter)
      ensures r.Failure? ==> draws == old(draws)
      ensures r == Failure(DrawNotFound) <==> drawId !in old(draws) || !AcceptsEntries(old(draws)[drawId], now)
      ensures r == Failure(AlreadyJoined) <==>
        drawId in old(draws) && AcceptsEntries(old(draws)[drawId], now)
        && userId in Uids(old(draws)[drawId].participants)
      ensures r.Success? ==>
        var d := old(draws)[drawId];
        && userId !in Uids(d.participants)
        && draws == old(draws)[drawId := d.(participants := d.participants + [Participant(userId, DisplayName(username, firstName))])]
        && r.value == |d.participants| + 1
    {
      if drawId !in draws || draws[drawId].finished || draws[drawId].endsAt < now {
        return Failure(DrawNotFound);
      }
      var d := draws[drawId];
      if userId in Uids(d.participants) {
        return Failure(AlreadyJoined);
      }
      var p := Participant(userId, DisplayName(username, firstName));
      JoinKeepsDrawsValid(draws, finished, drawCounter, drawId, p);
      d := d.(participants := d.participants + [p]);
      draws := draws[drawId := d];
      r := Success(|d.participants|);
    }

    /**
      finishDraw: a draw that is not open is left alone. Otherwise it is
      marked finished at `now`, moved from the open draws to the archive with
      its winners (the first min(winnersCount || 1, n) participants of the
      shuffle `perm`), and, for a money prize, each winner is credited
      floor(prize / winners); the remainder is credited to nobody.
    */
    method FinishDraw(id: int, perm: seq<nat>, now: int) returns (outcome: FinishOutcome)
      requires Valid()
      requires id in draws ==> IsPermutation(perm, |draws[id].participants|)
      modifies this
      ensures Valid()
      ensures promos == old(promos) && drawCounter == old(drawCounter)
      ensures id !in old(draws) ==>
        outcome == NotOpen && users == old(users) && draws == old(draws) && finished == old(finished)
      ensures id in old(draws) ==>
        var d := old(draws)[id];
        var ws := PickWinners(d.participants, perm, d.winnersCount);
        && draws == old(draws) - {id}
        && finished == old(finished)[id := Archived(d, ws, now)]
        && (d.participants == [] ==> ws == [] && outcome == NoParticipants && users == old(users))
        && (d.participants != [] && !IsMoney(d.prize) ==> outcome == Finished(ws, false, 0) && users == old(users))
        && (d.participants != [] && IsMoney(d.prize) ==>
              var each := SplitPrize(PrizeAmount(d.prize), |ws|);
              && outcome == Finished(ws, true, each)
              && users == CreditAll(old(users), ws, each))
    {
      if id !in draws || draws[id].finished {
        return NotOpen;
      }
      var d := draws[id];
      var winners := PickWinners(d.participants, perm, d.winnersCount);
      ArchiveKeepsDrawsValid(draws, finished, drawCounter, id, perm, now);
      finished := finished[id := Archived(d, winners, now)];
      draws := draws - {id};
      if |d.participants| == 0 {
        return NoParticipants;
      }
      var money := IsMoney(d.prize);
      var each := if money then SplitPrize(PrizeAmount(d.prize), |winners|) else 0;
      outcome := Finished(winners, money, each);
      if money {
        PayWinners(winners, each);
      }
    }

    /**
      The loop over the winners of a money prize: each winner's record is
      fetched (created if missing) and credited `each`.
    */
    method PayWinners(winners: seq<Participant>, each: nat)
      requires Valid()
      modifies this
      ensures Valid()
      ensures users == CreditAll(old(users), winners, each)
      ensures promos == old(promos) && draws == old(draws) && finished == old(finished)
      ensures drawCounter == old(drawCounter)
    {
      var i := 0;
      while i < |winners|
        invariant 0 <= i <= |winners|
        invariant users == CreditAll(old(users), winners[..i], each)
        invariant promos == old(promos) && draws == old(draws) && finished == old(finished)
        invariant drawCounter == old(drawCounter)
        invariant Valid()
      {
        var w := winners[i];
        ghost var credited := users;
        var u := GetUser(w.uid);
        OverwriteCreated(credited, w.uid, u.(balance := u.balance + each));
        CreditKeepsUsersValid(credited, w.uid, each);
        users := users[w.uid := u.(balance := u.balance + each)];
        CreditAllStep(old(users), winners, i, each);
        i := i + 1;
      }
      assert winners[..|winners|] == winners;
    }

    /**
      /ddelete #ID: refuse a malformed id, a draw that is still open, and an
      id that is not in the archive; otherwise remove exactly that archive
      entry. Balances are untouched.
    */
    method DeleteDraw(parts: seq<string>) returns (r: Result<int, DeleteError>)
      requires Valid()
      modifies this
      ensures Valid()
      ensures users == old(users) && promos == old(promos) && draws == old(draws)
      ensures drawCounter == old(drawCounter)
      ensures ParseDrawId(parts).Failure? ==> r == Failure(BadCommand(ParseDrawId(parts).error))
      ensures ParseDrawId(parts).Success? ==>
        var id := ParseDrawId(parts).value;
        && (id in old(draws) ==> r == Failure(StillActive))
        && (id !in old(draws) && id !in old(finished) ==> r == Failure(NotInArchive))
        && (id !in old(draws) && id in old(finished) ==> r == Success(id))
      ensures r.Failure? ==> finished == old(finished)
      ensures r.Success? ==> r.value in old(finished) && finished == old(finished) - {r.value}
    {
      var parsed := ParseDrawId(parts);
      if parsed.Failure? {
        return Failure(BadCommand(parsed.error));
      }
      var id := parsed.value;
      if id in draws && !draws[id].finished {
        return Failure(StillActive);
      }
      if id !in finished {
        return Failure(NotInArchive);
      }
      DeleteKeepsDrawsValid(draws, finished, drawCounter, id);
      finished := finished - {id};
      r := Success(id);
    }

    // -------------------------------------------------------------------------
    // Public lists (their properties are those of ActiveList and FinishedList)

    /** GET /api/draws */
    function ActiveDraws(now: int): seq<ActiveSummary>
      reads this
      requires Valid()
    {
      ActiveList(draws, drawCounter, now)
    }

    /** GET /api/draws/finished */
    function FinishedDraws(): seq<FinishedView>
      reads this
      requires Valid()
    {
      FinishedList(finished, drawCounter)
    }
  }
}
