/** The identity table: single-row updates, bulk recoveries, and retiring the guests a platform
    keeps refusing. */
module IdentityStore {
  import opened Lists
  import opened Options
  import opened Text
  import opened IdentityLife

  type Table = map<nat, Row>

  /** Identities the shared pool can spend: live, under the streak, not kept for an endpoint. */
  function Usable(rows: Table, platform: string, maxStreak: nat): set<nat>
  {
    set id | id in rows && rows[id].platform == platform && (rows[id].state.Active? || rows[id].state.Cooling?)
      && rows[id].fails < maxStreak && !rows[id].reserved
  }

  /** Minted guests that have failed at least `streak` times in a row. */
  function Burned(rows: Table, platform: string, streak: nat): set<nat>
  {
    set id | id in rows && rows[id].platform == platform
      && (rows[id].state.Active? || rows[id].state.Cooling? || rows[id].state.Degraded?)
      && rows[id].minted && !rows[id].authenticated && rows[id].fails >= streak
  }

  /** The answer of the ordered, limited query: distinct burned rows, highest streaks first, as
      many as there are up to the limit, and none left out that failed more than one taken. */
  ghost predicate Selection(rows: Table, platform: string, streak: nat, limit: nat, chosen: seq<nat>)
  {
    && (forall i | 0 <= i < |chosen| :: chosen[i] in Burned(rows, platform, streak))
    && (forall i, j | 0 <= i < j < |chosen| :: chosen[i] != chosen[j])
    && (forall i, j | 0 <= i < j < |chosen| :: rows[chosen[i]].fails >= rows[chosen[j]].fails)
    && |chosen| <= limit
    && (|chosen| < limit ==> Elements(chosen) == Burned(rows, platform, streak))
    && (forall id, i | id in Burned(rows, platform, streak) && id !in chosen && 0 <= i < |chosen| ::
          rows[id].fails <= rows[chosen[i]].fails)
  }

  /** Whom `retire_burned` chooses: nobody while the threshold is off or no identity is usable. */
  ghost predicate Retirement(
    rows: Table, platform: string, streak: int, maxStreak: nat, limit: nat, chosen: seq<nat>)
  {
    if streak <= 0 || Usable(rows, platform, maxStreak) == {} then chosen == []
    else Selection(rows, platform, streak, limit, chosen)
  }

  function BurnedReason(fails: nat): string
  {
    "auto: " + Digits(fails) + " consecutive failures with no success"
  }

  function RetireEach(rows: Table, ids: set<nat>, now: int): Table
  {
    map id | id in rows :: if id in ids then WasRetired(rows[id], now, BurnedReason(rows[id].fails)) else rows[id]
  }

  lemma {:induction false} OneMoreRetired(rows: Table, chosen: seq<nat>, i: nat, now: int)
    requires i < |chosen| && chosen[i] in rows && chosen[i] !in chosen[..i]
    ensures var id, done := chosen[i], RetireEach(rows, Elements(chosen[..i]), now);
      && id in done && done[id] == rows[id]
      && done[id := WasRetired(rows[id], now, BurnedReason(rows[id].fails))]
         == RetireEach(rows, Elements(chosen[..i + 1]), now)
  {
  }

  class Store {
    var rows: Table

    constructor (rows: Table)
      ensures this.rows == rows
    {
      this.rows := rows;
    }

    /** An identity that is gone reads as retired. */
    method RecordOutcome(id: nat, outcome: Outcome, backoff: Backoff, now: int) returns (state: State)
      modifies this
      ensures rows ==
        if id in old(rows) then old(rows)[id := Recorded(backoff, old(rows)[id], outcome, now)] else old(rows)
      ensures state == if id in rows then rows[id].state else Retired
    {
      if id !in rows {
        return Retired;
      }
      var row := rows[id].(lastUsedAt := Some(now));
      if outcome == Ok {
        row := row.(fails := 0);
        if row.state == Cooling {
          row := row.(state := Active, cooldownUntil := None);
        }
      } else if outcome == NetworkError {
        row := row.(fails := row.fails + 1);
      } else if outcome == RiskControl {
        row := row.(fails := row.fails + 1);
        var seconds := CooldownSeconds(backoff, row.fails);
        row := row.(cooldownUntil := Some(now + seconds));
        row := row.(state := if seconds >= backoff.maximum then Degraded else Cooling);
      }
      rows := rows[id := row];
      return row.state;
    }

    method PromoteRecovered(platform: string, now: int)
      modifies this
      ensures rows == map id | id in old(rows) ::
        if old(rows)[id].platform == platform then Promoted(old(rows)[id], now) else old(rows)[id]
      ensures forall id | id in old(rows) && rows[id] != old(rows)[id] ::
        && rows[id] == old(rows)[id].(state := Active, cooldownUntil := None)
        && old(rows)[id].platform == platform && (old(rows)[id].state.Cooling? || old(rows)[id].state.Degraded?)
      ensures forall id | id in old(rows) && old(rows)[id].platform == platform ::
        (rows[id].state.Cooling? || rows[id].state.Degraded?) ==>
          rows[id].cooldownUntil.Some? && rows[id].cooldownUntil.value > now
    {
      var todo := rows.Keys;
      while todo != {}
        invariant rows.Keys == old(rows).Keys && todo <= rows.Keys
        invariant forall id | id in todo :: rows[id] == old(rows)[id]
        invariant forall id | id in rows && id !in todo ::
          rows[id] == if old(rows)[id].platform == platform then Promoted(old(rows)[id], now) else old(rows)[id]
        decreases todo
      {
        var id :| id in todo;
        var row := rows[id];
        if row.platform == platform && (row.state == Cooling || row.state == Degraded)
           && (row.cooldownUntil == None || row.cooldownUntil.value <= now) {
          rows := rows[id := row.(state := Active, cooldownUntil := None)];
        }
        todo := todo - {id};
      }
    }

    method CoolAllOnProxy(proxy: nat, now: int, seconds: int)
      modifies this
      ensures rows == map id | id in old(rows) ::
        if old(rows)[id].proxy == Some(proxy) then Cooled(old(rows)[id], now, seconds) else old(rows)[id]
      ensures forall id | id in old(rows) ::
        var was := old(rows)[id];
        rows[id] ==
          if was.proxy == Some(proxy) && (was.state.Active? || was.state.Degraded?)
          then was.(state := Cooling, cooldownUntil := Some(now + seconds)) else was
    {
      var todo := rows.Keys;
      while todo != {}
        invariant rows.Keys == old(rows).Keys && todo <= rows.Keys
        invariant forall id | id in todo :: rows[id] == old(rows)[id]
        invariant forall id | id in rows && id !in todo ::
          rows[id] == if old(rows)[id].proxy == Some(proxy) then Cooled(old(rows)[id], now, seconds) else old(rows)[id]
        decreases todo
      {
        var id :| id in todo;
        var row := rows[id];
        if row.proxy == Some(proxy) && (row.state == Active || row.state == Degraded) {
          rows := rows[id := row.(state := Cooling, cooldownUntil := Some(now + seconds))];
        }
        todo := todo - {id};
      }
    }

    method RetireOne(id: nat, now: int, reason: string)
      modifies this
      ensures rows == if id in old(rows) then old(rows)[id := WasRetired(old(rows)[id], now, reason)] else old(rows)
    {
      if id !in rows {
        return;
      }
      rows := rows[id := rows[id].(state := Retired, retiredAt := Some(now), reason := reason, jar := "")];
    }

    /** The ordered, limited query: repeatedly the burned row with the longest streak. */
    method SelectBurned(platform: string, streak: nat, limit: nat) returns (chosen: seq<nat>)
      ensures Selection(rows, platform, streak, limit, chosen)
    {
      chosen := [];
      var left := Burned(rows, platform, streak);
      while |chosen| < limit && left != {}
        invariant |chosen| <= limit
        invariant Elements(chosen) + left == Burned(rows, platform, streak) && Elements(chosen) !! left
        invariant forall i, j | 0 <= i < j < |chosen| :: chosen[i] != chosen[j]
        invariant forall i | 0 <= i < |chosen| :: chosen[i] in Burned(rows, platform, streak)
        invariant forall i, j | 0 <= i < j < |chosen| :: rows[chosen[i]].fails >= rows[chosen[j]].fails
        invariant forall id, i | id in left && 0 <= i < |chosen| :: rows[id].fails <= rows[chosen[i]].fails
        decreases left
      {
        var worst := Worst(left);
        ElementsGrow(chosen, worst);
        assert forall i | 0 <= i < |chosen| :: chosen[i] in Elements(chosen);
        chosen, left := chosen + [worst], left - {worst};
      }
    }

    method Worst(ids: set<nat>) returns (worst: nat)
      requires ids != {} && ids <= rows.Keys
      ensures worst in ids && forall id | id in ids :: rows[id].fails <= rows[worst].fails
    {
      worst :| worst in ids;
      var todo := ids;
      while todo != {}
        invariant worst in ids && todo <= ids
        invariant forall id | id in ids && id !in todo :: rows[id].fails <= rows[worst].fails
        decreases todo
      {
        var id :| id in todo;
        if rows[id].fails > rows[worst].fails {
          worst := id;
        }
        todo := todo - {id};
      }
    }

    /** Nothing is retired when the threshold is off, or while no identity is usable. */
    method RetireBurned(platform: string, streak: int, maxStreak: nat, limit: nat, now: int) returns (chosen: seq<nat>)
      modifies this
      ensures Retirement(old(rows), platform, streak, maxStreak, limit, chosen)
      ensures rows == RetireEach(old(rows), Elements(chosen), now)
      ensures rows.Keys == old(rows).Keys
      ensures forall id | id in old(rows) ::
        rows[id] ==
          if id in chosen
          then old(rows)[id].(
            state := Retired, retiredAt := Some(now), jar := "",
            reason := "auto: " + Digits(old(rows)[id].fails) + " consecutive failures with no success")
          else old(rows)[id]
    {
      chosen := [];
      if streak <= 0 || |Usable(rows, platform, maxStreak)| == 0 {
        assert rows == RetireEach(rows, Elements(chosen), now);
        return;
      }
      chosen := SelectBurned(platform, streak, limit);
      ghost var before := rows;
      for i := 0 to |chosen|
        invariant rows == RetireEach(before, Elements(chosen[..i]), now)
      {
        assert chosen[i] !in chosen[..i];
        OneMoreRetired(before, chosen, i, now);
        RetireOne(chosen[i], now, BurnedReason(rows[chosen[i]].fails));
      }
      assert chosen[..|chosen|] == chosen;
    }
  }

  // What retiring the burned does to the pool

  /** Who is chosen, row by row: nobody when the threshold is off or no identity of the platform
      is active or cooling, under the pool's streak and unreserved; otherwise only minted guests
      of the platform that never signed in, are active, cooling or degraded, and have failed at
      least so often - every one of them unless the limit was reached. */
  lemma WhoIsRetired(
    rows: Table, platform: string, streak: int, maxStreak: nat, limit: nat, chosen: seq<nat>, id: nat)
    requires Retirement(rows, platform, streak, maxStreak, limit, chosen) && id in rows
    ensures streak <= 0 ==> chosen == []
    ensures (forall k | k in rows ::
        rows[k].platform != platform || rows[k].reserved || rows[k].fails >= maxStreak
        || !(rows[k].state.Active? || rows[k].state.Cooling?)) ==> chosen == []
    ensures var row := rows[id];
      var refused := row.platform == platform && row.minted && !row.authenticated && row.fails >= streak
        && (row.state.Active? || row.state.Cooling? || row.state.Degraded?);
      && (id in chosen ==> refused)
      && (refused && streak > 0 && |chosen| < limit ==> id in chosen || forall k | k in rows ::
            rows[k].platform != platform || rows[k].reserved || rows[k].fails >= maxStreak
            || !(rows[k].state.Active? || rows[k].state.Cooling?))
  {
    if streak > 0 {
      assert id in Elements(chosen) <==> id in chosen;
      assert Usable(rows, platform, maxStreak) == {} <==> forall k | k in rows ::
        rows[k].platform != platform || rows[k].reserved || rows[k].fails >= maxStreak
        || !(rows[k].state.Active? || rows[k].state.Cooling?) by {
        assert forall k | k in rows :: k !in Usable(rows, platform, maxStreak) <==>
          (rows[k].platform != platform || rows[k].reserved || rows[k].fails >= maxStreak
           || !(rows[k].state.Active? || rows[k].state.Cooling?));
      }
    }
  }

  /** Retiring takes from the usable identities exactly those it chose. */
  lemma UsableAfterRetiring(rows: Table, ids: set<nat>, now: int, platform: string, maxStreak: nat)
    ensures Usable(RetireEach(rows, ids, now), platform, maxStreak) == Usable(rows, platform, maxStreak) - ids
  {
  }

  /** At or above the pool's own streak threshold the usable identities stay exactly what they
      were, so a usable pool is never emptied; and no imported or signed-in identity is
      touched, nor any other platform's. */
  lemma BurnedNeverEmptiesThePool(
    rows: Table, platform: string, streak: int, maxStreak: nat, limit: nat, chosen: seq<nat>, now: int)
    requires Retirement(rows, platform, streak, maxStreak, limit, chosen) && streak >= maxStreak
    ensures var after := RetireEach(rows, Elements(chosen), now);
      && (forall p :: Usable(after, p, maxStreak) == Usable(rows, p, maxStreak))
      && (forall id | id in rows && (!rows[id].minted || rows[id].authenticated || rows[id].platform != platform) ::
            after[id] == rows[id])
      && (forall id | id in rows && id !in chosen :: after[id] == rows[id])
      && (forall i | 0 <= i < |chosen| ::
            chosen[i] in after && after[chosen[i]].state.Retired? && after[chosen[i]].jar == "")
  {
    var after := RetireEach(rows, Elements(chosen), now);
    forall p ensures Usable(after, p, maxStreak) == Usable(rows, p, maxStreak) {
      UsableAfterRetiring(rows, Elements(chosen), now, p, maxStreak);
      if chosen != [] {
        assert Usable(rows, p, maxStreak) !! Burned(rows, platform, streak);
      }
    }
    assert forall i | 0 <= i < |chosen| :: chosen[i] in Elements(chosen);
  }

  /** Below it the pool can be emptied: one usable guest that has failed often enough. */
  lemma BelowThresholdCanEmptyThePool(row: Row, streak: int, maxStreak: nat, limit: nat, now: int)
    requires 0 < streak < maxStreak && limit >= 1
    requires row.state.Active? && row.minted && !row.authenticated && !row.reserved && row.fails == streak
    ensures var rows := map[0 := row];
      && Usable(rows, row.platform, maxStreak) == {0}
      && Retirement(rows, row.platform, streak, maxStreak, limit, [0])
      && Usable(RetireEach(rows, Elements([0]), now), row.platform, maxStreak) == {}
  {
    var rows := map[0 := row];
    assert Burned(rows, row.platform, streak) == {0};
    assert Elements([0]) == {0};
  }

  /** Whatever the table, retiring the burned costs the pool no usable identity. */
  ghost predicate CostsNothingUsable(streak: int, maxStreak: nat, limit: nat)
  {
    forall rows: Table, platform: string, chosen: seq<nat>, now: int |
      Retirement(rows, platform, streak, maxStreak, limit, chosen) ::
      Usable(RetireEach(rows, Elements(chosen), now), platform, maxStreak) == Usable(rows, platform, maxStreak)
  }

  /** Exactly the thresholds at or above the pool's own are safe. */
  lemma SafeExactlyFromThePoolsThreshold(streak: int, maxStreak: nat, limit: nat)
    requires streak > 0 && limit >= 1
    ensures CostsNothingUsable(streak, maxStreak, limit) <==> streak >= maxStreak
  {
    if streak >= maxStreak {
      forall rows: Table, platform: string, chosen: seq<nat>, now: int |
        Retirement(rows, platform, streak, maxStreak, limit, chosen)
        ensures
          Usable(RetireEach(rows, Elements(chosen), now), platform, maxStreak) == Usable(rows, platform, maxStreak)
      {
        BurnedNeverEmptiesThePool(rows, platform, streak, maxStreak, limit, chosen, now);
      }
    } else {
      var row := Row("", Active, streak, None, "", true, false, false, None, None, "", None);
      BelowThresholdCanEmptyThePool(row, streak, maxStreak, limit, 0);
      var rows := map[0 := row];
      assert Usable(RetireEach(rows, Elements([0]), 0), "", maxStreak) != Usable(rows, "", maxStreak);
    }
  }

  /** The pool's own threshold is at least one, and the maintenance job never passes a
      retirement threshold below it. */
  function PoolStreak(setting: int): nat
  {
    if setting < 1 then 1 else setting
  }

  function MaintenanceStreak(setting: int, poolSetting: int): int
  {
    if setting <= 0 then setting
    else if setting < PoolStreak(poolSetting) then PoolStreak(poolSetting) else setting
  }

  /** So however the two are configured, the job leaves every usable identity usable. */
  lemma MaintenanceNeverEmptiesThePool(
    rows: Table, platform: string, setting: int, poolSetting: int, limit: nat, chosen: seq<nat>, now: int)
    requires Retirement(
      rows, platform, MaintenanceStreak(setting, poolSetting), PoolStreak(poolSetting), limit, chosen)
    ensures Usable(RetireEach(rows, Elements(chosen), now), platform, PoolStreak(poolSetting))
         == Usable(rows, platform, PoolStreak(poolSetting))
  {
    if MaintenanceStreak(setting, poolSetting) > 0 {
      BurnedNeverEmptiesThePool(
        rows, platform, MaintenanceStreak(setting, poolSetting), PoolStreak(poolSetting), limit, chosen, now);
    } else {
      UsableAfterRetiring(rows, Elements(chosen), now, platform, PoolStreak(poolSetting));
    }
  }

  /** And whom it chooses, beside some healthy identity of the platform: switched off, nobody;
      otherwise the guests that have failed at least once, as often as its own setting says and
      as often as the pool's, all of them unless the limit was reached. */
  lemma MaintenanceRetiresTheRefused(
    rows: Table, platform: string, setting: int, poolSetting: int, limit: nat, chosen: seq<nat>, healthy: nat, id: nat)
    requires Retirement(
      rows, platform, MaintenanceStreak(setting, poolSetting), PoolStreak(poolSetting), limit, chosen)
    requires healthy in rows && rows[healthy].platform == platform && !rows[healthy].reserved
    requires rows[healthy].state.Active? && rows[healthy].fails == 0 && id in rows
    ensures setting <= 0 ==> chosen == []
    ensures var row := rows[id];
      var refused := row.platform == platform && row.minted && !row.authenticated
        && (row.state.Active? || row.state.Cooling? || row.state.Degraded?)
        && row.fails >= 1 && row.fails >= setting && row.fails >= poolSetting;
      && (id in chosen ==> refused)
      && (refused && setting > 0 && |chosen| < limit ==> id in chosen)
  {
    WhoIsRetired(
      rows, platform, MaintenanceStreak(setting, poolSetting), PoolStreak(poolSetting), limit, chosen, id);
    assert !(rows[healthy].platform != platform || rows[healthy].reserved
             || rows[healthy].fails >= PoolStreak(poolSetting) || !rows[healthy].state.Active?);
  }
}
