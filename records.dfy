/**
  The bot's records (users, promo codes, draws and their participants) and
  the pure calculations its handlers perform on them: lazy user creation,
  code normalisation, the money-prize test and split, winner selection from
  a shuffle, crediting winners, and referral attribution.
*/
module Records {
  import opened Wrappers
  import opened JsString

  const StartBalance: int := 1000      // balance of a user created by getUser
  const ReferralReward: int := 1000    // credited to the inviter per referral
  const MilestoneReward: int := 2000   // one-time bonus at the third referral
  const MilestoneRefs: nat := 3
  const MaxWinners: nat := 100
  const AnonymousName: string := "Аноним"

  predicate NoDuplicates<T(==)>(s: seq<T>) {
    forall i, j :: 0 <= i < j < |s| ==> s[i] != s[j]
  }

  // ---------------------------------------------------------------------------
  // Users

  /** One entry of an inviter's `refs` list: the invitee's display name and the date. */
  datatype Referral = Referral(name: string, date: string)

  /**
    The ledger part of a user record. `refBy` is null until attributed;
    `task3Done` marks the one-time three-referral bonus as granted.
  */
  datatype User = User(
    balance: int,
    refs: seq<Referral>,
    refBy: Option<string>,
    refEarned: int,
    usedPromos: seq<string>,
    task3Done: bool)

  function NewUser(): User {
    User(StartBalance, [], None, 0, [], false)
  }

  /** The record `getUser(uid)` returns: the stored one, or a fresh one. */
  function UserOr(users: map<string, User>, uid: string): User {
    if uid in users then users[uid] else NewUser()
  }

  /** The user table after `getUser(uid)`: the record is created on first contact and never replaced. */
  function WithUser(users: map<string, User>, uid: string): (r: map<string, User>)
    ensures r.Keys == users.Keys + {uid}
    ensures uid in users ==> r == users
    ensures uid !in users ==> r[uid] == NewUser() && forall k :: k in users ==> r[k] == users[k]
  {
    if uid in users then users else users[uid := NewUser()]
  }

  /** Creating a record and then overwriting it is the same as writing the new record directly. */
  lemma OverwriteCreated(users: map<string, User>, uid: string, v: User)
    ensures WithUser(users, uid)[uid := v] == users[uid := v]
  {
  }

  /**
    What every user record keeps true: a code appears at most once in
    `usedPromos`, `refEarned` is the flat reward times the number of
    referrals, and the milestone flag is set exactly when there are at least
    three referrals.
  */
  ghost predicate UserValid(u: User) {
    && NoDuplicates(u.usedPromos)
    && u.refEarned == ReferralReward * |u.refs|
    && (u.task3Done <==> |u.refs| >= MilestoneRefs)
  }

  ghost predicate AllUsersValid(users: map<string, User>) {
    forall uid :: uid in users ==> UserValid(users[uid])
  }

  lemma NewUserValid()
    ensures UserValid(NewUser())
  {
  }

  // ---------------------------------------------------------------------------
  // Promo codes

  datatype Promo = Promo(reward: int, maxUses: int, usedCount: int, vipOnly: bool)

  /** The usage counter starts at 0 and only ever moves up to the cap. */
  ghost predicate PromoValid(p: Promo) {
    0 <= p.usedCount && (p.usedCount <= p.maxUses || p.usedCount == 0)
  }

  /** The code a redemption request looks up: `(code || '').toUpperCase().trim()`. */
  function NormaliseCode(code: string): string {
    Trim(ToUpper(code))
  }

  lemma UpperOfLower(c: char)
    ensures ToUpperChar(ToLowerChar(c)) == ToUpperChar(c)
    ensures ToUpperChar(ToUpperChar(c)) == ToUpperChar(c)
    ensures IsSpace(ToUpperChar(c)) <==> IsSpace(c)
  {
  }

  /** Only a code that is blank (white space only) normalises to the empty code refused as an invalid request. */
  lemma BlankCodeIsEmpty(code: string)
    ensures NormaliseCode(code) == [] <==> forall i :: 0 <= i < |code| ==> IsSpace(code[i])
  {
    var u := ToUpper(code);
    forall i | 0 <= i < |code| ensures IsSpace(u[i]) <==> IsSpace(code[i]) {
      UpperOfLower(code[i]);
    }
    TrimEmptyIffBlank(u);
  }

  /** Redemption does not depend on the case the user types the code in. */
  lemma NormaliseIgnoresCase(code: string)
    ensures NormaliseCode(ToLower(code)) == NormaliseCode(code)
    ensures NormaliseCode(ToUpper(code)) == NormaliseCode(code)
  {
    forall i | 0 <= i < |code| {
      UpperOfLower(code[i]);
    }
    assert ToUpper(ToLower(code)) == ToUpper(code);
    assert ToUpper(ToUpper(code)) == ToUpper(code);
  }

  /**
    A code stored by /cpromo or /vpromo under `toUpperCase()` of a word with
    no surrounding white space is the key that redeeming that word looks up.
  */
  lemma ProvisionedKeyIsLookedUp(code: string)
    requires Trim(code) == code
    ensures NormaliseCode(code) == ToUpper(code)
  {
    var u := ToUpper(code);
    if code != [] {
      UpperOfLower(code[0]);
      UpperOfLower(code[|code| - 1]);
      assert !IsSpace(u[0]) && !IsSpace(u[|u| - 1]);
      assert TrimStart(u) == u;
      assert TrimEnd(u) == u;
    }
  }

  /**
    /cpromo and /vpromo split the command on ' ' only, so a code word may still
    start or end with another white-space character (a tab, a no-break space).
    Such a code is stored under a key that redemption, which trims, never looks
    up, whatever text the user types.
  */
  lemma PaddedKeyIsNotLookedUp(code: string)
    requires code != [] && (IsSpace(code[0]) || IsSpace(code[|code| - 1]))
    ensures forall typed :: NormaliseCode(typed) != ToUpper(code)
  {
    var u := ToUpper(code);
    UpperOfLower(code[0]);
    UpperOfLower(code[|code| - 1]);
    assert IsSpace(u[0]) || IsSpace(u[|u| - 1]);
  }

  // ---------------------------------------------------------------------------
  // Draws

  datatype Participant = Participant(uid: string, name: string)

  /** The name a participant is recorded under: "@username", else the first name, else "Аноним". */
  function DisplayName(username: string, firstName: string): (r: string)
    ensures r != []
  {
    if username != "" then "@" + username
    else if firstName != "" then firstName
    else AnonymousName
  }

  datatype Draw = Draw(
    id: int,
    prize: string,
    endsAt: int,
    imageUrl: Option<string>,
    participants: seq<Participant>,
    finished: bool,
    winnersCount: nat,
    createdAt: int,
    finishedAt: Option<int>,
    winners: seq<Participant>)

  function Uids(ps: seq<Participant>): set<string> {
    set p | p in ps :: p.uid
  }

  predicate UniqueUids(ps: seq<Participant>) {
    forall i, j :: 0 <= i < j < |ps| ==> ps[i].uid != ps[j].uid
  }

  /** An open draw: not finished, no winners yet, one entry per user, 1 to 100 winners wanted. */
  ghost predicate IsOpen(d: Draw) {
    && !d.finished
    && d.finishedAt.None?
    && d.winners == []
    && UniqueUids(d.participants)
    && 1 <= d.winnersCount <= MaxWinners
  }

  /**
    An archived draw: finished at a recorded time, with as many distinct
    winners as `min(winnersCount || 1, participants.length)`, all of them
    participants.
  */
  ghost predicate IsArchived(d: Draw) {
    && d.finished
    && d.finishedAt.Some?
    && UniqueUids(d.participants)
    && 1 <= d.winnersCount <= MaxWinners
    && |d.winners| == WinnerCount(d.winnersCount, |d.participants|)
    && UniqueUids(d.winners)
    && (forall w :: w in d.winners ==> w in d.participants)
  }

  /** A draw the active list shows: not finished and its end still ahead. */
  predicate IsActive(d: Draw, now: int) {
    !d.finished && d.endsAt > now
  }

  /** A draw that still accepts entries: not finished and its end not yet passed. */
  predicate AcceptsEntries(d: Draw, now: int) {
    !d.finished && d.endsAt >= now
  }

  /** Appending a user who does not yet take part keeps one entry per user and adds exactly that user. */
  lemma JoinKeepsUidsUnique(ps: seq<Participant>, p: Participant)
    requires UniqueUids(ps) && p.uid !in Uids(ps)
    ensures UniqueUids(ps + [p])
    ensures Uids(ps + [p]) == Uids(ps) + {p.uid}
  {
    forall i, j | 0 <= i < j < |ps| + 1
      ensures (ps + [p])[i].uid != (ps + [p])[j].uid
    {
      if j == |ps| {
        assert ps[i] in ps;
      }
    }
  }

  /** `min(winnersCount || 1, n)`: how many winners a draw with `n` participants gets. */
  function WinnerCount(winnersCount: nat, n: nat): (k: nat)
    ensures k <= n
    ensures n > 0 ==> k >= 1
    ensures k <= (if winnersCount == 0 then 1 else winnersCount)
    ensures k == n || k == (if winnersCount == 0 then 1 else winnersCount)
  {
    var wanted := if winnersCount == 0 then 1 else winnersCount;
    if wanted < n then wanted else n
  }

  /** `perm` lists every index below `n` exactly once (the random shuffle's outcome). */
  predicate IsPermutation(perm: seq<nat>, n: nat) {
    && |perm| == n
    && (forall i :: 0 <= i < n ==> perm[i] < n)
    && NoDuplicates(perm)
  }

  /** Distinct naturals all below `m` are at most `m` in number. */
  lemma {:induction false} Pigeonhole(s: seq<nat>, m: nat)
    requires NoDuplicates(s)
    requires forall i :: 0 <= i < |s| ==> s[i] < m
    ensures |s| <= m
    decreases m
  {
    if m > 0 {
      if exists k :: 0 <= k < |s| && s[k] == m - 1 {
        var k :| 0 <= k < |s| && s[k] == m - 1;
        var rest := s[..k] + s[k + 1..];
        assert forall i :: 0 <= i < |rest| ==> rest[i] == if i < k then s[i] else s[i + 1];
        assert forall i :: 0 <= i < |rest| ==> rest[i] < m - 1 by {
          forall i | 0 <= i < |rest| ensures rest[i] < m - 1 {
            if i < k { assert s[i] != s[k]; } else { assert s[i + 1] != s[k]; }
          }
        }
        Pigeonhole(rest, m - 1);
      } else {
        Pigeonhole(s, m - 1);
      }
    }
  }

  /** A permutation of the indices below `n` lists every one of them. */
  lemma PermutationCovers(perm: seq<nat>, n: nat)
    requires IsPermutation(perm, n)
    ensures forall j :: 0 <= j < n ==> j in perm
  {
    forall j | 0 <= j < n ensures j in perm {
      if j !in perm {
        // Closing the gap at j leaves n distinct values below n - 1.
        var squeezed := seq(n, i requires 0 <= i < n => if perm[i] > j then perm[i] - 1 else perm[i]);
        assert forall i :: 0 <= i < n ==> perm[i] != j;
        Pigeonhole(squeezed, n - 1);
        assert false;
      }
    }
  }

  /**
    The participants in the shuffled order `perm`: the same participants,
    every one of them, each in the place `perm` sends it to.
  */
  function Shuffle(ps: seq<Participant>, perm: seq<nat>): (r: seq<Participant>)
    requires IsPermutation(perm, |ps|)
    ensures |r| == |ps|
    ensures forall i :: 0 <= i < |r| ==> r[i] == ps[perm[i]]
    ensures forall p :: p in r <==> p in ps
  {
    var r := seq(|ps|, i requires 0 <= i < |ps| => ps[perm[i]]);
    PermutationCovers(perm, |ps|);
    assert forall p :: p in ps ==> p in r by {
      forall p | p in ps ensures p in r {
        var j :| 0 <= j < |ps| && ps[j] == p;
        assert j in perm;
        var i :| 0 <= i < |perm| && perm[i] == j;
        assert r[i] == p;
      }
    }
    r
  }

  /**
    The winners: the first `min(winnersCount || 1, n)` entries of the
    shuffled participant list. They are participants, and distinct users
    whenever the participants are.
  */
  function PickWinners(ps: seq<Participant>, perm: seq<nat>, winnersCount: nat): (ws: seq<Participant>)
    requires IsPermutation(perm, |ps|)
    ensures |ws| == WinnerCount(winnersCount, |ps|)
    ensures forall w :: w in ws ==> w in ps
    ensures UniqueUids(ps) ==> UniqueUids(ws)
  {
    var s := Shuffle(ps, perm);
    assert forall i :: 0 <= i < |s| ==> s[i] in ps;
    s[..WinnerCount(winnersCount, |ps|)]
  }

  // ---------------------------------------------------------------------------
  // Money prizes

  /** `isMoney(prize)`: the trimmed prize text is one or more decimal digits. */
  predicate IsMoney(prize: string) {
    AllDigits(Trim(prize))
  }

  /**
    A money prize is a decimal number with nothing but white space around
    it: every other character is a digit, and parseInt reads the trimmed
    digits.
  */
  lemma MoneyPrizeIsNumber(prize: string)
    requires IsMoney(prize)
    ensures ParseInt(prize) == Some(Value(Trim(prize), false))
    ensures forall i :: 0 <= i < |prize| && !IsSpace(prize[i]) ==> IsDigit(prize[i])
  {
    ParseIntOfTrimmedDigits(prize);
    TrimIsSlice(prize);
    DigitsBetweenSpaces(prize, |prize| - |TrimStart(prize)|, Trim(prize));
  }

  lemma DigitsBetweenSpaces(s: string, k: nat, r: string)
    requires k + |r| <= |s| && AllDigits(r)
    requires forall i :: 0 <= i < |r| ==> r[i] == s[k + i]
    requires forall i :: 0 <= i < k ==> IsSpace(s[i])
    requires forall i :: k + |r| <= i < |s| ==> IsSpace(s[i])
    ensures forall i :: 0 <= i < |s| && !IsSpace(s[i]) ==> IsDigit(s[i])
  {
    forall i | 0 <= i < |s| && !IsSpace(s[i]) ensures IsDigit(s[i]) {
      assert r[i - k] == s[i];
    }
  }

  /** The amount of a money prize: what `parseInt(prize)` reads from it. */
  function PrizeAmount(prize: string): (n: nat)
    requires IsMoney(prize)
    ensures ParseInt(prize) == Some(n)
  {
    ParseIntOfTrimmedDigits(prize);
    Value(Trim(prize), false)
  }

  /**
    `Math.floor(amount / count)`: each winner's share. All shares together
    never exceed the prize, and what is left over is less than one more share
    per winner; it is credited to nobody.
  */
  function SplitPrize(amount: nat, count: nat): (each: nat)
    requires count > 0
    ensures each * count <= amount
    ensures amount - each * count < count
  {
    amount / count
  }

  /** The user table after `getUser(uid).balance += amount`. */
  function Credit(users: map<string, User>, uid: string, amount: int): map<string, User> {
    var u := UserOr(users, uid);
    users[uid := u.(balance := u.balance + amount)]
  }

  /** The user table after crediting `amount` to each winner in turn. */
  function CreditAll(users: map<string, User>, ws: seq<Participant>, amount: int): map<string, User>
    decreases |ws|
  {
    if ws == [] then users
    else Credit(CreditAll(users, ws[..|ws| - 1], amount), ws[|ws| - 1].uid, amount)
  }

  /**
    Crediting a user makes sure the user exists, moves only their balance,
    by `amount`, and changes nobody else.
  */
  lemma CreditEffect(users: map<string, User>, uid: string, amount: int)
    ensures Credit(users, uid, amount).Keys == users.Keys + {uid}
    ensures Credit(users, uid, amount)[uid].balance == UserOr(users, uid).balance + amount
    ensures Credit(users, uid, amount)[uid] == UserOr(users, uid).(balance := Credit(users, uid, amount)[uid].balance)
    ensures forall k :: k in users && k != uid ==> Credit(users, uid, amount)[k] == users[k]
  {
  }

  /**
    Crediting any list of winners, repeats included, gives every winner a
    record and changes nobody else.
  */
  lemma {:induction false} CreditAllFrame(users: map<string, User>, ws: seq<Participant>, amount: int)
    ensures CreditAll(users, ws, amount).Keys == users.Keys + Uids(ws)
    ensures forall k :: k in users && k !in Uids(ws) ==> CreditAll(users, ws, amount)[k] == users[k]
  {
    if ws != [] {
      var init, last := ws[..|ws| - 1], ws[|ws| - 1];
      assert ws == init + [last];
      assert Uids(ws) == Uids(init) + {last.uid};
      CreditAllFrame(users, init, amount);
    }
  }

  /** Splitting off the last participant of a list with one entry per user. */
  lemma UniqueInitAndLast(ws: seq<Participant>)
    requires ws != [] && UniqueUids(ws)
    ensures UniqueUids(ws[..|ws| - 1])
    ensures ws[|ws| - 1].uid !in Uids(ws[..|ws| - 1])
    ensures Uids(ws) == Uids(ws[..|ws| - 1]) + {ws[|ws| - 1].uid}
  {
    var init, last := ws[..|ws| - 1], ws[|ws| - 1];
    assert ws == init + [last];
    forall p | p in init ensures p.uid != last.uid {
      var i :| 0 <= i < |init| && init[i] == p;
      assert ws[i] == p;
    }
  }

  /**
    Crediting distinct winners raises each winner's balance (from the
    starting 1000 if the winner had no record) by exactly `amount`, changes
    nothing else in their records, and leaves every other user untouched.
  */
  lemma {:induction false} CreditAllEffect(users: map<string, User>, ws: seq<Participant>, amount: int)
    requires UniqueUids(ws)
    ensures CreditAll(users, ws, amount).Keys == users.Keys + Uids(ws)
    ensures forall uid :: uid in Uids(ws) ==>
      CreditAll(users, ws, amount)[uid] == UserOr(users, uid).(balance := UserOr(users, uid).balance + amount)
    ensures forall uid :: uid in users && uid !in Uids(ws) ==> CreditAll(users, ws, amount)[uid] == users[uid]
  {
    if ws != [] {
      UniqueInitAndLast(ws);
      CreditAllEffect(users, ws[..|ws| - 1], amount);
    }
  }

  /** Crediting touches a balance only, so every user record stays valid. */
  lemma CreditKeepsUsersValid(users: map<string, User>, uid: string, amount: int)
    requires AllUsersValid(users)
    ensures AllUsersValid(Credit(users, uid, amount))
  {
    NewUserValid();
  }

  /** Crediting the first i + 1 winners is crediting the first i and then winner i. */
  lemma CreditAllStep(users: map<string, User>, ws: seq<Participant>, i: nat, amount: int)
    requires i < |ws|
    ensures CreditAll(users, ws[..i + 1], amount) == Credit(CreditAll(users, ws[..i], amount), ws[i].uid, amount)
  {
    assert ws[..i + 1][..i] == ws[..i];
  }

  // ---------------------------------------------------------------------------
  // Referrals

  /** Which notification the inviter receives. */
  datatype Bonus = NoBonus | ReferralBonus | MilestoneBonus

  /**
    The inviter's record after one more referral: the entry is added, 1000
    is credited to both `balance` and `refEarned`, and when the list reaches
    three while the milestone flag is unset, 2000 more and the flag.
  */
  function Rewarded(ru: User, entry: Referral): (r: (User, Bonus))
    ensures r.0.refs == ru.refs + [entry]
    ensures r.0.refEarned == ru.refEarned + ReferralReward
    ensures r.1 != NoBonus
    ensures r.1 == MilestoneBonus <==> |ru.refs| + 1 >= MilestoneRefs && !ru.task3Done
    ensures r.0.balance == ru.balance + ReferralReward + (if r.1 == MilestoneBonus then MilestoneReward else 0)
    ensures r.0.task3Done == (ru.task3Done || r.1 == MilestoneBonus)
    ensures r.0.refBy == ru.refBy && r.0.usedPromos == ru.usedPromos
  {
    var ru1 := ru.(refs := ru.refs + [entry],
                   balance := ru.balance + ReferralReward,
                   refEarned := ru.refEarned + ReferralReward);
    if |ru1.refs| >= MilestoneRefs && !ru1.task3Done then
      (ru1.(balance := ru1.balance + MilestoneReward, task3Done := true), MilestoneBonus)
    else
      (ru1, ReferralBonus)
  }

  /**
    The effect of an accepted referral: the new user's `refBy` is set, and
    the inviter (created if unknown) is rewarded.
  */
  function ApplyReferral(users: map<string, User>, uid: string, refUID: string, entry: Referral)
    : (r: (map<string, User>, Bonus))
    requires uid in users && uid != refUID
    ensures r.0.Keys == users.Keys + {refUID}
    ensures r.0[uid] == users[uid].(refBy := Some(refUID))
    ensures (r.0[refUID], r.1) == Rewarded(UserOr(users, refUID), entry)
    ensures forall k :: k in users && k != uid && k != refUID ==> r.0[k] == users[k]
  {
    var rw := Rewarded(UserOr(users, refUID), entry);
    (users[uid := users[uid].(refBy := Some(refUID))][refUID := rw.0], rw.1)
  }

  /** Creating the inviter's record before the two writes changes nothing in the outcome. */
  lemma ReferralWritesAfterCreate(users: map<string, User>, uid: string, refUID: string, x: User, y: User)
    ensures WithUser(users, refUID)[uid := x][refUID := y] == users[uid := x][refUID := y]
  {
  }

  /** JavaScript truthiness of `u.refBy`: null and the empty string are falsy. */
  predicate Truthy(refBy: Option<string>) {
    refBy.Some? && refBy.value != ""
  }

  /** The guard as written, `refUID !== uid && !u.refBy`. */
  predicate MayAttributeAsWritten(users: map<string, User>, uid: string, refUID: string)
    requires uid in users
  {
    refUID != uid && !Truthy(users[uid].refBy)
  }

  /** Referral attribution with the guard as written. */
  function ReferAsWritten(users: map<string, User>, uid: string, refUID: string, entry: Referral)
    : (r: (map<string, User>, Bonus))
    requires uid in users
    ensures !MayAttributeAsWritten(users, uid, refUID) ==> r == (users, NoBonus)
  {
    if MayAttributeAsWritten(users, uid, refUID) then ApplyReferral(users, uid, refUID, entry)
    else (users, NoBonus)
  }

  /**
    With the guard as written, the payload "ref_" (an empty inviter id)
    records `refBy = ""`, which is falsy, so the same user is attributed
    again on the next start: the empty-id inviter collects a second referral.
  */
  lemma AsWrittenReattributes(users: map<string, User>, uid: string, e1: Referral, e2: Referral)
    requires uid in users && uid != "" && users[uid].refBy.None?
    ensures var once := ReferAsWritten(users, uid, "", e1).0;
      && once[uid].refBy == Some("")
      && MayAttributeAsWritten(once, uid, "")
      && |ReferAsWritten(once, uid, "", e2).0[""].refs| == |UserOr(users, "").refs| + 2
  {
  }

  /** The evidently intended guard: attribute only a user who has no referrer recorded. */
  predicate MayAttribute(users: map<string, User>, uid: string, refUID: string)
    requires uid in users
  {
    refUID != uid && users[uid].refBy.None?
  }

  /** Referral attribution for the new user `uid` (already created) invited by `refUID`. */
  function Refer(users: map<string, User>, uid: string, refUID: string, entry: Referral)
    : (r: (map<string, User>, Bonus))
    requires uid in users
    ensures !MayAttribute(users, uid, refUID) ==> r == (users, NoBonus)
    ensures MayAttribute(users, uid, refUID) ==> uid in r.0 && r.0[uid].refBy == Some(refUID) && r.1 != NoBonus
  {
    if MayAttribute(users, uid, refUID) then ApplyReferral(users, uid, refUID, entry)
    else (users, NoBonus)
  }

  /**
    Attribution is write-once: after one start with any payload, a second
    start with any inviter changes nothing, unless the first was refused.
  */
  lemma ReferWriteOnce(users: map<string, User>, uid: string, x: string, y: string, e1: Referral, e2: Referral)
    requires uid in users
    ensures var once := Refer(users, uid, x, e1).0;
      Refer(once, uid, y, e2) == (once, NoBonus) || once == users
  {
  }

  /**
    Referral keeps every user record valid, and the milestone bonus is
    granted exactly when the inviter's referral list grows from two to
    three, hence at most once per inviter.
  */
  lemma ReferKeepsUsersValid(users: map<string, User>, uid: string, refUID: string, entry: Referral)
    requires uid in users && AllUsersValid(users)
    ensures AllUsersValid(Refer(users, uid, refUID, entry).0)
    ensures Refer(users, uid, refUID, entry).1 == MilestoneBonus <==>
      MayAttribute(users, uid, refUID) && |UserOr(users, refUID).refs| == MilestoneRefs - 1
  {
    NewUserValid();
    var ru := UserOr(users, refUID);
    assert UserValid(ru);
    if MayAttribute(users, uid, refUID) {
      var r := Refer(users, uid, refUID, entry).0;
      assert UserValid(r[uid]);
      assert UserValid(r[refUID]);
    }
  }
}
