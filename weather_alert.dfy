/** The alert engine of src/WeatherAlert.py: a cooldown registry per station
    database (the WeatherAlerts table), the per-(rule, station) decision
    procedure `check_alert` with its three alert semantics (staleness, direct
    threshold, variation over a window), the "nearest past record" selection
    that its SQL encodes, and the `run_alert_checks` loop over enabled rules
    and their stations.

    Time is an integer number of seconds of naive wall-clock time; SQL
    `NOW()` and Python `datetime.now()` are the one parameter `now`. The hour
    and month of an observation (MySQL `HOUR()`, `MONTH()`) are given with it.
    Sending the e-mail is not modelled: a fired event is reported in the
    outcome list of `RunAlertChecks`. */
module WeatherAlert {
  import opened Wrappers
  import opened TimeAgo

  /** One row of the station's WeatherConditions table: its timestamp, the
      calendar hour and month of that timestamp, and the numeric columns. */
  datatype Observation = Observation(time: int, hour: int, month: int, readings: map<string, real>)

  datatype AlertType = Increase | Decrease | NoUpdate | OtherType(name: string)

  /** The rule's `stations` entry: a single key or a list of keys. */
  datatype StationList = OneStation(key: string) | StationKeys(keys: seq<string>)

  /** One entry of the alert configuration file. `excludeHours` is present
      only when both bounds of `exclude_hours` are given. */
  datatype AlertRule = AlertRule(
    name: string,
    enabled: bool,
    stations: StationList,
    weatherField: string,
    alertType: AlertType,
    threshold: real,
    timeAgo: string,
    cooldown: int,
    excludeMonths: seq<int>,
    excludeHours: Option<(int, int)>)

  /** The event `check_alert` returns; the human-readable reason text is not
      modelled. */
  datatype AlertEvent =
    | Stale(now: int, lastTime: int)
    | ThresholdCrossed(now: int, lastTime: int, lastValue: real)
    | VariationCrossed(now: int, lastTime: int, lastValue: real,
                       pastTime: int, pastValue: real, variation: real)

  /** The only error that escapes `check_alert`: the ValueError of
      `parse_time_ago`, which is not a MySQLError and so is not caught. */
  datatype AlertError = BadTimeAgo(rule: string, timeAgo: string)

  /** One row of WeatherAlerts, keyed by (alert_name, station_key). */
  datatype CooldownRecord = CooldownRecord(lastSent: int, cooldownMinutes: int)

  type RegistryKey = (string, string)

  // ---------------------------------------------------------------------
  // Cooldown registry (is_cooldown_active, register_alert)
  // ---------------------------------------------------------------------

  /** A record exists for the pair and fewer than `cooldown` minutes have
      passed since it was last sent. The cooldown compared against is the
      one passed in by the caller, not the stored one. */
  predicate CooldownActive(registry: map<RegistryKey, CooldownRecord>,
                           alert: string, station: string, cooldown: int, now: int)
    ensures CooldownActive(registry, alert, station, cooldown, now) ==> (alert, station) in registry
    ensures (alert, station) in registry && registry[(alert, station)].lastSent <= now && cooldown <= 0
            ==> !CooldownActive(registry, alert, station, cooldown, now)
  {
    (alert, station) in registry && now - registry[(alert, station)].lastSent < cooldown * 60
  }

  /** The upsert `INSERT ... ON DUPLICATE KEY UPDATE last_sent = VALUES(last_sent)`:
      a new pair gets (now, cooldown); an existing pair only gets a new
      last_sent and keeps its stored cooldown_minutes. */
  function Register(registry: map<RegistryKey, CooldownRecord>,
                    alert: string, station: string, cooldown: int, now: int)
    : (r: map<RegistryKey, CooldownRecord>)
    ensures r.Keys == registry.Keys + {(alert, station)}
    ensures r[(alert, station)].lastSent == now
    ensures (alert, station) in registry ==>
              r[(alert, station)].cooldownMinutes == registry[(alert, station)].cooldownMinutes
    ensures (alert, station) !in registry ==> r[(alert, station)].cooldownMinutes == cooldown
    ensures forall k :: k in registry && k != (alert, station) ==> r[k] == registry[k]
  {
    var k := (alert, station);
    if k in registry then registry[k := registry[k].(lastSent := now)]
    else registry[k := CooldownRecord(now, cooldown)]
  }

  /** Once registered at time `t0` with a cooldown of `c` minutes, the pair is
      in cooldown exactly for the query times before `t0 + 60 c`. */
  lemma CooldownWindow(registry: map<RegistryKey, CooldownRecord>,
                       alert: string, station: string, c: int, t0: int, t: int)
    ensures CooldownActive(Register(registry, alert, station, c, t0), alert, station, c, t)
            <==> t < t0 + c * 60
  {
  }

  /** Registering twice leaves one record, whose last_sent is the later time
      and whose cooldown is the one stored by the first registration. */
  lemma RegisterTwice(registry: map<RegistryKey, CooldownRecord>,
                      alert: string, station: string, c1: int, t1: int, c2: int, t2: int)
    ensures Register(Register(registry, alert, station, c1, t1), alert, station, c2, t2)
            == Register(registry, alert, station, c1, t2)
  {
    var k := (alert, station);
    var once := Register(registry, alert, station, c1, t2);
    var twice := Register(Register(registry, alert, station, c1, t1), alert, station, c2, t2);
    assert twice.Keys == once.Keys;
    assert forall k' :: k' in once ==> twice[k'] == once[k'];
  }

  // ---------------------------------------------------------------------
  // Latest and earliest rows (ORDER BY WC_Datetime DESC / ASC LIMIT 1)
  // ---------------------------------------------------------------------

  function Latest(obs: seq<Observation>): (r: Option<Observation>)
    ensures r.None? <==> obs == []
    ensures r.Some? ==> r.value in obs && forall o :: o in obs ==> o.time <= r.value.time
  {
    if obs == [] then None
    else
      var init := obs[..|obs| - 1];
      var last := obs[|obs| - 1];
      var l := Latest(init);
      assert forall o :: o in obs ==> o in init || o == last;
      if l.None? || l.value.time <= last.time then Some(last) else l
  }

  function Earliest(obs: seq<Observation>): (r: Option<Observation>)
    ensures r.None? <==> obs == []
    ensures r.Some? ==> r.value in obs && forall o :: o in obs ==> r.value.time <= o.time
  {
    if obs == [] then None
    else
      var init := obs[..|obs| - 1];
      var last := obs[|obs| - 1];
      var l := Earliest(init);
      assert forall o :: o in obs ==> o in init || o == last;
      if l.None? || last.time < l.value.time then Some(last) else l
  }

  // ---------------------------------------------------------------------
  // Past-record selection (the UNION ALL query of check_alert)
  // ---------------------------------------------------------------------

  /** `HOUR(WC_Datetime) NOT BETWEEN lo AND hi` fails: the hour lies in the
      inclusive range. Without both bounds there is no hour clause. */
  predicate HourExcluded(excludeHours: Option<(int, int)>, hour: int)
  {
    excludeHours.Some? && excludeHours.value.0 <= hour <= excludeHours.value.1
  }

  /** The WHERE clause of the first sub-query: `BETWEEN target AND now` and
      `<= target`, plus the hour clause. */
  predicate BeforeBranch(rule: AlertRule, o: Observation, target: int, now: int)
  {
    target <= o.time <= now && o.time <= target && !HourExcluded(rule.excludeHours, o.hour)
  }

  /** The WHERE clause of the second sub-query: `BETWEEN target AND now` and
      `> target`, plus the hour clause and the month clause. */
  predicate AfterBranch(rule: AlertRule, o: Observation, target: int, now: int)
  {
    target <= o.time <= now && o.time > target && !HourExcluded(rule.excludeHours, o.hour)
    && o.month !in rule.excludeMonths
  }

  function BeforeRows(obs: seq<Observation>, rule: AlertRule, target: int, now: int)
    : (r: seq<Observation>)
    ensures forall o :: o in r <==> o in obs && BeforeBranch(rule, o, target, now)
  {
    if obs == [] then []
    else
      var init := obs[..|obs| - 1];
      var last := obs[|obs| - 1];
      assert forall o :: o in obs <==> o in init || o == last;
      BeforeRows(init, rule, target, now) + (if BeforeBranch(rule, last, target, now) then [last] else [])
  }

  function AfterRows(obs: seq<Observation>, rule: AlertRule, target: int, now: int)
    : (r: seq<Observation>)
    ensures forall o :: o in r <==> o in obs && AfterBranch(rule, o, target, now)
  {
    if obs == [] then []
    else
      var init := obs[..|obs| - 1];
      var last := obs[|obs| - 1];
      assert forall o :: o in obs <==> o in init || o == last;
      AfterRows(init, rule, target, now) + (if AfterBranch(rule, last, target, now) then [last] else [])
  }

  /** `ORDER BY ABS(TIMESTAMPDIFF(SECOND, past_datetime, target)) LIMIT 1`
      over the (at most two) rows of the union. */
  function Closest(a: Option<Observation>, b: Option<Observation>, target: int): Option<Observation>
  {
    if a.None? then b
    else if b.None? then a
    else if Dist(a.value.time, target) <= Dist(b.value.time, target) then a
    else b
  }

  function Dist(t: int, target: int): nat
  {
    if t < target then target - t else t - target
  }

  /** The past record `check_alert` compares against: the union of the
      latest row of the first sub-query and the earliest row of the second,
      closest to the target `now - time_ago` first. */
  /** Whatever is selected lies in [target, now], is never in an excluded
      hour, and is in an excluded month only when it sits exactly on the
      target (the month clause belongs to the second sub-query alone). */
  function SelectPast(obs: seq<Observation>, rule: AlertRule, target: int, now: int)
    : (r: Option<Observation>)
    ensures r.Some? ==>
              && r.value in obs
              && target <= r.value.time <= now
              && !HourExcluded(rule.excludeHours, r.value.hour)
              && (r.value.time == target || r.value.month !in rule.excludeMonths)
  {
    var b := Latest(BeforeRows(obs, rule, target, now));
    var a := Earliest(AfterRows(obs, rule, target, now));
    assert b.Some? ==> b.value in BeforeRows(obs, rule, target, now);
    assert a.Some? ==> a.value in AfterRows(obs, rule, target, now);
    Closest(b, a, target)
  }

  /** A row exactly at the target that is not in an excluded hour always
      wins over any later row; only such rows can come from the first
      sub-query. */
  lemma ExactTargetWins(obs: seq<Observation>, rule: AlertRule, target: int, now: int, o: Observation)
    requires o in obs && o.time == target && target <= now
    requires !HourExcluded(rule.excludeHours, o.hour)
    ensures SelectPast(obs, rule, target, now).Some?
    ensures SelectPast(obs, rule, target, now).value.time == target
  {
    var before := BeforeRows(obs, rule, target, now);
    assert o in before;
    var b := Latest(before);
    assert b.value in before;
    var a := Earliest(AfterRows(obs, rule, target, now));
    assert a.Some? ==> a.value in AfterRows(obs, rule, target, now);
  }

  /** Without a usable row at the target, the selection is the earliest row
      in (target, now] outside the excluded hours and months, and there is
      none exactly when no such row exists. */
  lemma EarliestAfterTarget(obs: seq<Observation>, rule: AlertRule, target: int, now: int)
    requires forall o :: o in obs ==> !BeforeBranch(rule, o, target, now)
    ensures SelectPast(obs, rule, target, now).Some?
            <==> exists o :: o in obs && AfterBranch(rule, o, target, now)
    ensures SelectPast(obs, rule, target, now).Some? ==>
              var p := SelectPast(obs, rule, target, now).value;
              AfterBranch(rule, p, target, now)
              && forall o :: o in obs && AfterBranch(rule, o, target, now) ==> p.time <= o.time
  {
    var before := BeforeRows(obs, rule, target, now);
    var after := AfterRows(obs, rule, target, now);
    var a := Earliest(after);
    if a.Some? {
      assert a.value in after;
    }
    if exists o :: o in obs && AfterBranch(rule, o, target, now) {
      var o :| o in obs && AfterBranch(rule, o, target, now);
      assert o in after;
    }
  }

  /** The two sub-queries never tie on distance: the first only yields rows
      at distance 0, the second only rows at a positive distance. */
  lemma NoDistanceTie(obs: seq<Observation>, rule: AlertRule, target: int, now: int)
    requires Latest(BeforeRows(obs, rule, target, now)).Some?
    requires Earliest(AfterRows(obs, rule, target, now)).Some?
    ensures Dist(Latest(BeforeRows(obs, rule, target, now)).value.time, target) == 0
    ensures Dist(Earliest(AfterRows(obs, rule, target, now)).value.time, target) > 0
  {
    var b := Latest(BeforeRows(obs, rule, target, now)).value;
    var a := Earliest(AfterRows(obs, rule, target, now)).value;
    assert b in BeforeRows(obs, rule, target, now);
    assert a in AfterRows(obs, rule, target, now);
  }

  // ---------------------------------------------------------------------
  // The decision of check_alert once the cooldown check has passed
  // ---------------------------------------------------------------------

  /** Every row carries exactly the table's columns. */
  predicate RowsHaveColumns(obs: seq<Observation>, columns: set<string>)
  {
    forall o :: o in obs ==> o.readings.Keys == columns
  }

  /** The direct-threshold test of a `time_ago` of zero. */
  predicate ThresholdMet(t: AlertType, lastValue: real, threshold: real)
  {
    (t == Increase && lastValue >= threshold) || (t == Decrease && lastValue <= threshold)
  }

  /** The variation test against the past record. */
  predicate VariationMet(t: AlertType, variation: real, threshold: real)
  {
    (t == Increase && variation >= threshold) || (t == Decrease && variation <= -threshold)
  }

  /** Everything `check_alert` decides after the cooldown check: Ok(Some(e))
      fires, Ok(None) is "no alert" (including a MySQL error on an unknown
      weather field, which is caught), Err is the escaping ValueError. */
  function Evaluate(rule: AlertRule, obs: seq<Observation>, columns: set<string>, now: int)
    : (r: Result<Option<AlertEvent>, AlertError>)
    requires RowsHaveColumns(obs, columns)
    ensures r.Err? ==> r.error == BadTimeAgo(rule.name, rule.timeAgo)
    ensures Fires(r) ==> rule.weatherField in columns && obs != [] && r.value.value.now == now
    ensures Fires(r) && r.value.value.Stale? <==> Fires(r) && rule.alertType == NoUpdate
    ensures Fires(r) && !r.value.value.Stale? ==> rule.alertType == Increase || rule.alertType == Decrease
  {
    if rule.weatherField !in columns then Ok(None)
    else match Latest(obs)
      case None => Ok(None)
      case Some(last) =>
        if rule.alertType == NoUpdate then
          if (now - last.time) as real >= rule.threshold * 60.0 then Ok(Some(Stale(now, last.time)))
          else Ok(None)
        else match ParseTimeAgo(rule.timeAgo)
          case Err(_) => Err(BadTimeAgo(rule.name, rule.timeAgo))
          case Ok((n, unit)) => Ok(Compare(rule, obs, columns, last, n, unit, now))
  }

  /** `NOW() - INTERVAL n unit`. */
  function Target(now: int, n: nat, unit: TimeUnit): int
  {
    now - n * UnitSeconds(unit)
  }

  /** The comparison once `time_ago` is parsed into `n` units: against the
      threshold when `n` is zero, against the selected past record
      otherwise. */
  function Compare(rule: AlertRule, obs: seq<Observation>, columns: set<string>,
                   last: Observation, n: nat, unit: TimeUnit, now: int): (r: Option<AlertEvent>)
    requires RowsHaveColumns(obs, columns) && rule.weatherField in columns && last in obs
    ensures r.Some? ==> rule.alertType == Increase || rule.alertType == Decrease
    ensures r.Some? && n == 0 ==> r.value == ThresholdCrossed(now, last.time, last.readings[rule.weatherField])
    ensures r.Some? && n > 0 ==>
              && r.value.VariationCrossed? && r.value.now == now && r.value.lastTime == last.time
              && r.value.variation == r.value.lastValue - r.value.pastValue
              && Target(now, n, unit) <= r.value.pastTime <= now
  {
    var lastValue := last.readings[rule.weatherField];
    if n == 0 then
      if ThresholdMet(rule.alertType, lastValue, rule.threshold)
      then Some(ThresholdCrossed(now, last.time, lastValue))
      else None
    else
      var target := Target(now, n, unit);
      match SelectPast(obs, rule, target, now)
      case None => None
      case Some(past) =>
        var pastValue := past.readings[rule.weatherField];
        var variation := lastValue - pastValue;
        if VariationMet(rule.alertType, variation, rule.threshold)
        then Some(VariationCrossed(now, last.time, lastValue, past.time, pastValue, variation))
        else None
  }

  predicate Fires(r: Result<Option<AlertEvent>, AlertError>)
  {
    r.Ok? && r.value.Some?
  }

  /** An unknown weather field or an empty table gives no event. */
  lemma NoDataNoEvent(rule: AlertRule, obs: seq<Observation>, columns: set<string>, now: int)
    requires RowsHaveColumns(obs, columns)
    requires obs == [] || rule.weatherField !in columns
    ensures Evaluate(rule, obs, columns, now) == Ok(None)
  {
  }

  /** A staleness rule fires iff at least `threshold` minutes have passed
      since the latest row, and its `time_ago` is never parsed: any other
      `time_ago` gives the same outcome. */
  lemma NoUpdateSemantics(rule: AlertRule, obs: seq<Observation>, columns: set<string>, now: int,
                          otherTimeAgo: string)
    requires RowsHaveColumns(obs, columns)
    requires rule.alertType == NoUpdate && rule.weatherField in columns && obs != []
    ensures Fires(Evaluate(rule, obs, columns, now))
            <==> (now - Latest(obs).value.time) as real >= rule.threshold * 60.0
    ensures Evaluate(rule, obs, columns, now).Ok?
    ensures Evaluate(rule.(timeAgo := otherTimeAgo), obs, columns, now) == Evaluate(rule, obs, columns, now)
  {
  }

  /** With a `time_ago` of zero, `increase` fires iff the latest value is at
      least the threshold and `decrease` iff it is at most the threshold;
      the rest of the history plays no part. */
  lemma DirectThresholdSemantics(rule: AlertRule, obs: seq<Observation>, columns: set<string>,
                                 now: int, u: TimeUnit)
    requires RowsHaveColumns(obs, columns)
    requires rule.alertType != NoUpdate && rule.weatherField in columns && obs != []
    requires ParseTimeAgo(rule.timeAgo) == Ok((0, u))
    ensures var v := Latest(obs).value.readings[rule.weatherField];
            Fires(Evaluate(rule, obs, columns, now))
            <==> (rule.alertType == Increase && v >= rule.threshold)
                 || (rule.alertType == Decrease && v <= rule.threshold)
    ensures Evaluate(rule, obs, columns, now) == Evaluate(rule, [Latest(obs).value], columns, now)
  {
    var last := Latest(obs).value;
    assert last in obs;
    assert Latest([last]) == Some(last);
  }

  /** With a positive `time_ago`, the rule fires iff a past record is
      selected and the variation last - past reaches the threshold upwards
      (`increase`) or downwards (`decrease`). */
  lemma VariationSemantics(rule: AlertRule, obs: seq<Observation>, columns: set<string>,
                           now: int, n: nat, u: TimeUnit, last: Observation)
    requires RowsHaveColumns(obs, columns)
    requires rule.alertType != NoUpdate && rule.weatherField in columns
    requires Latest(obs) == Some(last)
    requires ParseTimeAgo(rule.timeAgo) == Ok((n, u)) && n > 0
    ensures var past := SelectPast(obs, rule, Target(now, n, u), now);
            Fires(Evaluate(rule, obs, columns, now))
            <==> past.Some? && past.value in obs
                 && VariationMet(rule.alertType,
                                 last.readings[rule.weatherField]
                                 - past.value.readings[rule.weatherField],
                                 rule.threshold)
  {
    var c := Compare(rule, obs, columns, last, n, u, now);
    assert Evaluate(rule, obs, columns, now) == Ok(c);
    CompareVariation(rule, obs, columns, last, now, n, u);
  }

  lemma CompareVariation(rule: AlertRule, obs: seq<Observation>, columns: set<string>,
                         last: Observation, now: int, n: nat, u: TimeUnit)
    requires RowsHaveColumns(obs, columns)
    requires rule.weatherField in columns && last in obs && n > 0
    ensures var past := SelectPast(obs, rule, Target(now, n, u), now);
            Compare(rule, obs, columns, last, n, u, now).Some?
            <==> past.Some? && past.value in obs
                 && VariationMet(rule.alertType,
                                 last.readings[rule.weatherField] - past.value.readings[rule.weatherField],
                                 rule.threshold)
  {
    var target := Target(now, n, u);
  }

  /** An alert type other than increase, decrease and no_update never fires
      (it can still fail on an unparsable `time_ago`). */
  lemma OtherTypeNeverFires(rule: AlertRule, obs: seq<Observation>, columns: set<string>, now: int)
    requires RowsHaveColumns(obs, columns)
    requires rule.alertType.OtherType?
    ensures !Fires(Evaluate(rule, obs, columns, now))
  {
  }

  /** The only error is an unparsable `time_ago`, and it is raised only after
      the latest row was found, for a rule that is not a staleness rule. */
  lemma ErrorOnlyOnBadTimeAgo(rule: AlertRule, obs: seq<Observation>, columns: set<string>, now: int)
    requires RowsHaveColumns(obs, columns)
    ensures Evaluate(rule, obs, columns, now).Err?
            <==> rule.weatherField in columns && obs != [] && rule.alertType != NoUpdate
                 && ParseTimeAgo(rule.timeAgo).Err?
  {
  }

  // ---------------------------------------------------------------------
  // Worked examples
  // ---------------------------------------------------------------------

  function ScenarioRule(t: AlertType, threshold: real, timeAgo: string): AlertRule
  {
    AlertRule("r", true, OneStation("db1"), "temp", t, threshold, timeAgo, 60, [], None)
  }

  function Row(time: int, v: real): Observation
  {
    Observation(time, 12, 6, map["temp" := v])
  }

  lemma ParseOneHour()
    ensures ParseTimeAgo("1h") == Ok((1, Hour))
  {
    assert NatToDigits(1) == "1";
    ParseRoundTrip("", 1, Hour, "");
    assert "" + NatToDigits(1) + [UnitChar(Hour)] + "" == "1h";
  }

  /** Over the rows [(now - 1h, 10.0), (now, v)], a "1h" increase rule
      compares v against the row exactly one hour back. */
  lemma ScenarioHourWindow(now: int, v: real, threshold: real)
    ensures var obs := [Row(now - 3600, 10.0), Row(now, v)];
            Evaluate(ScenarioRule(Increase, threshold, "1h"), obs, {"temp"}, now)
            == Ok(Compare(ScenarioRule(Increase, threshold, "1h"), obs, {"temp"}, Row(now, v), 1, Hour, now))
            && SelectPast(obs, ScenarioRule(Increase, threshold, "1h"), now - 3600, now)
               == Some(Row(now - 3600, 10.0))
  {
    ScenarioLatestRow(now, v, threshold);
    ScenarioPastRow(now, v, threshold);
  }

  lemma ScenarioLatestRow(now: int, v: real, threshold: real)
    ensures var obs := [Row(now - 3600, 10.0), Row(now, v)];
            Evaluate(ScenarioRule(Increase, threshold, "1h"), obs, {"temp"}, now)
            == Ok(Compare(ScenarioRule(Increase, threshold, "1h"), obs, {"temp"}, Row(now, v), 1, Hour, now))
  {
    ParseOneHour();
    var obs := [Row(now - 3600, 10.0), Row(now, v)];
    assert Latest(obs) == Some(Row(now, v));
  }

  lemma ScenarioPastRow(now: int, v: real, threshold: real)
    ensures SelectPast([Row(now - 3600, 10.0), Row(now, v)], ScenarioRule(Increase, threshold, "1h"), now - 3600, now)
            == Some(Row(now - 3600, 10.0))
  {
    var past := Row(now - 3600, 10.0);
    var obs := [past, Row(now, v)];
    var rule := ScenarioRule(Increase, threshold, "1h");
    ExactTargetWins(obs, rule, now - 3600, now, past);
    var selected := SelectPast(obs, rule, now - 3600, now);
    assert selected.value in obs && selected.value.time == now - 3600;
  }

  /** An increase of 6 over the last hour against a threshold of 5 fires;
      an increase of 4 does not. */
  lemma ScenarioVariationFires(now: int)
    ensures Evaluate(ScenarioRule(Increase, 5.0, "1h"), [Row(now - 3600, 10.0), Row(now, 16.0)], {"temp"}, now)
            == Ok(Some(VariationCrossed(now, now, 16.0, now - 3600, 10.0, 6.0)))
  {
    ScenarioHourWindow(now, 16.0, 5.0);
  }

  lemma ScenarioVariationQuiet(now: int)
    ensures Evaluate(ScenarioRule(Increase, 5.0, "1h"), [Row(now - 3600, 10.0), Row(now, 14.0)], {"temp"}, now)
            == Ok(None)
  {
    ScenarioHourWindow(now, 14.0, 5.0);
  }

  /** A staleness rule of 120 minutes fires when the latest row is 150
      minutes old. */
  lemma ScenarioStale(now: int)
    ensures Evaluate(ScenarioRule(NoUpdate, 120.0, "0m"), [Row(now - 150 * 60, 1.0)], {"temp"}, now)
            == Ok(Some(Stale(now, now - 150 * 60)))
  {
  }

  /** Fired at t0 with a cooldown of 60 minutes: suppressed 30 minutes
      later, evaluated again 61 minutes later. */
  lemma ScenarioCooldown(registry: map<RegistryKey, CooldownRecord>, t0: int)
    ensures CooldownActive(Register(registry, "r", "db1", 60, t0), "r", "db1", 60, t0 + 30 * 60)
    ensures !CooldownActive(Register(registry, "r", "db1", 60, t0), "r", "db1", 60, t0 + 61 * 60)
  {
    CooldownWindow(registry, "r", "db1", 60, t0, t0 + 30 * 60);
    CooldownWindow(registry, "r", "db1", 60, t0, t0 + 61 * 60);
  }

  // ---------------------------------------------------------------------
  // Rule loading and scheduling
  // ---------------------------------------------------------------------

  /** `load_alert_config`: the rules whose `enabled` is true, in file order. */
  function EnabledRules(rules: seq<AlertRule>): (r: seq<AlertRule>)
    ensures forall a :: a in r <==> a in rules && a.enabled
    ensures |r| <= |rules|
  {
    if rules == [] then []
    else
      var init := rules[..|rules| - 1];
      var last := rules[|rules| - 1];
      assert forall a :: a in rules <==> a in init || a == last;
      EnabledRules(init) + (if last.enabled then [last] else [])
  }

  /** The filter keeps file order and multiplicity: filtering a
      concatenation is concatenating the filtered parts, and a single rule
      is kept exactly when it is enabled. */
  lemma {:induction false} EnabledRulesAppend(a: seq<AlertRule>, b: seq<AlertRule>)
    ensures EnabledRules(a + b) == EnabledRules(a) + EnabledRules(b)
    ensures |a| == 1 ==> EnabledRules(a) == if a[0].enabled then a else []
    decreases |b|
  {
    if |a| == 1 {
      assert a[..0] == [];
    }
    if b == [] {
      assert a + b == a;
    } else {
      var init := b[..|b| - 1];
      assert (a + b)[..|a + b| - 1] == a + init;
      assert (a + b)[|a + b| - 1] == b[|b| - 1];
      EnabledRulesAppend(a, init);
    }
  }

  /** A single station key is treated as a one-element list. */
  function Keys(stations: StationList): seq<string>
  {
    match stations
    case OneStation(k) => [k]
    case StationKeys(ks) => ks
  }

  /** The (rule, station) pairs `run_alert_checks` evaluates for one rule:
      its station keys in order, skipping keys without a database
      configuration. */
  function RulePairs(rule: AlertRule, keys: seq<string>, configured: set<string>)
    : (r: seq<(AlertRule, string)>)
    ensures |r| <= |keys|
    ensures forall k :: 0 <= k < |r| ==> r[k].0 == rule
  {
    if keys == [] then []
    else
      var last := keys[|keys| - 1];
      RulePairs(rule, keys[..|keys| - 1], configured) + (if last in configured then [(rule, last)] else [])
  }

  /** All pairs, rule by rule in list order. */
  function Schedule(rules: seq<AlertRule>, configured: set<string>): seq<(AlertRule, string)>
  {
    if rules == [] then []
    else
      var last := rules[|rules| - 1];
      Schedule(rules[..|rules| - 1], configured) + RulePairs(last, Keys(last.stations), configured)
  }

  lemma RulePairsNext(rule: AlertRule, keys: seq<string>, j: nat, configured: set<string>)
    requires j < |keys|
    ensures RulePairs(rule, keys[..j + 1], configured)
         == RulePairs(rule, keys[..j], configured) + (if keys[j] in configured then [(rule, keys[j])] else [])
  {
    assert keys[..j + 1][..j] == keys[..j];
  }

  /** A rule is checked against exactly its configured station keys. */
  lemma {:induction false} RulePairsMembers(rule: AlertRule, keys: seq<string>, configured: set<string>)
    ensures forall p :: p in RulePairs(rule, keys, configured)
                        <==> p.0 == rule && p.1 in keys && p.1 in configured
    decreases |keys|
  {
    if keys != [] {
      var init := keys[..|keys| - 1];
      assert forall k :: k in keys <==> k in init || k == keys[|keys| - 1];
      RulePairsMembers(rule, init, configured);
    }
  }

  /** The run checks exactly the pairs of an enabled rule and one of its
      station keys that has a database configuration. */
  lemma {:induction false} ScheduleMembers(rules: seq<AlertRule>, configured: set<string>)
    ensures forall p :: p in Schedule(rules, configured)
                        <==> p.0 in rules && p.1 in Keys(p.0.stations) && p.1 in configured
    decreases |rules|
  {
    if rules != [] {
      var init := rules[..|rules| - 1];
      var last := rules[|rules| - 1];
      assert forall a :: a in rules <==> a in init || a == last;
      ScheduleMembers(init, configured);
      RulePairsMembers(last, Keys(last.stations), configured);
    }
  }

  /** What one evaluation of `check_alert` produced, for the run's log. */
  datatype Outcome = Outcome(rule: string, station: string, event: Option<AlertEvent>)

  // ---------------------------------------------------------------------
  // The station database: observations and the WeatherAlerts table
  // ---------------------------------------------------------------------

  class StationDb {
    var observations: seq<Observation>
    var columns: set<string>
    /** The WeatherAlerts table. */
    var alerts: map<RegistryKey, CooldownRecord>
    /** False when queries on WeatherAlerts raise a MySQL error. */
    var alertsReachable: bool

    ghost predicate Valid()
      reads this
    {
      RowsHaveColumns(observations, columns)
    }

    /** Everything `check_alert` reads here besides the WeatherAlerts table. */
    ghost function View(): StationView
      reads this
    {
      StationView(observations, columns, alertsReachable)
    }

    constructor (observations: seq<Observation>, columns: set<string>, reachable: bool)
      requires RowsHaveColumns(observations, columns)
      ensures Valid()
      ensures this.observations == observations && this.columns == columns
      ensures alerts == map[] && alertsReachable == reachable
    {
      this.observations := observations;
      this.columns := columns;
      alerts := map[];
      alertsReachable := reachable;
    }

    /** `is_cooldown_active`: fails open, i.e. a database error reads as
        "no cooldown". */
    method IsCooldownActive(alert: string, station: string, cooldown: int, now: int)
      returns (active: bool)
      ensures !alertsReachable ==> !active
      ensures alertsReachable ==> (active <==> CooldownActive(alerts, alert, station, cooldown, now))
    {
      if !alertsReachable {
        return false;
      }
      var k := (alert, station);
      active := k in alerts && now - alerts[k].lastSent < cooldown * 60;
    }

    /** `register_alert`: the upsert; on a database error nothing is written. */
    method RegisterAlert(alert: string, station: string, cooldown: int, now: int)
      modifies this`alerts
      ensures alerts == if alertsReachable then Register(old(alerts), alert, station, cooldown, now)
                        else old(alerts)
    {
      if alertsReachable {
        var k := (alert, station);
        if k in alerts {
          alerts := alerts[k := alerts[k].(lastSent := now)];
        } else {
          alerts := alerts[k := CooldownRecord(now, cooldown)];
        }
      }
    }
  }

  // ---------------------------------------------------------------------
  // The engine (class WeatherAlert)
  // ---------------------------------------------------------------------

  class AlertEngine {
    /** The enabled rules (`self.alerts`). */
    const alerts: seq<AlertRule>
    /** `db_configs['dbConfigs']`: station key to its database. */
    const dbConfigs: map<string, StationDb>

    ghost predicate Valid()
      reads this, dbConfigs.Values
    {
      forall db :: db in dbConfigs.Values ==> db.Valid()
    }

    /** `__init__` with `load_alert_config`: only enabled rules are kept. */
    constructor (rules: seq<AlertRule>, dbConfigs: map<string, StationDb>)
      ensures alerts == EnabledRules(rules) && this.dbConfigs == dbConfigs
    {
      alerts := EnabledRules(rules);
      this.dbConfigs := dbConfigs;
    }

    /** `check_alert` for one rule and one station database: the cooldown is
        checked first, then `Evaluate` decides, and a fired event is
        registered. */
    static method CheckAlert(rule: AlertRule, station: string, db: StationDb, now: int)
      returns (r: Result<Option<AlertEvent>, AlertError>)
      requires db.Valid()
      modifies db`alerts
      ensures (r, db.alerts) == AlertStep(rule, station, db.View(), old(db.alerts), now)
    {
      var active := db.IsCooldownActive(rule.name, station, rule.cooldown, now);
      if active {
        return Ok(None);
      }
      r := Evaluate(rule, db.observations, db.columns, now);
      if Fires(r) {
        db.RegisterAlert(rule.name, station, rule.cooldown, now);
      }
    }

    /** The WeatherAlerts table of each station database. */
    ghost function Registries(): map<StationDb, Registry>
      reads this, dbConfigs.Values
    {
      map db | db in dbConfigs.Values :: db.alerts
    }

    /** The rest of each station database, which a run only reads. */
    ghost function Views(): map<StationDb, StationView>
      reads this, dbConfigs.Values
    {
      map db | db in dbConfigs.Values :: db.View()
    }

    /** After a change to one WeatherAlerts table and nothing else. */
    twostate lemma AlertsOnly(db: StationDb)
      requires unchanged(this) && db in dbConfigs.Values
      requires forall d :: d in dbConfigs.Values && d != db ==> unchanged(d)
      requires unchanged(db`observations, db`columns, db`alertsReachable)
      ensures Views() == old(Views())
      ensures Registries() == old(Registries())[db := db.alerts]
    {
    }

    lemma ValidCovers()
      requires Valid()
      ensures Covers(dbConfigs, Views(), Registries())
    {
    }

    /** The inner loop of `run_alert_checks` for one rule: `check_alert` on
        each of its station keys that has a database configuration, in
        order, until the ValueError of an unparsable `time_ago` escapes.
        The outcomes, the error and every WeatherAlerts table are those of
        `RunPairs` over the rule's pairs. */
    method CheckRule(rule: AlertRule, now: int) returns (outcomes: seq<Outcome>, failure: Option<AlertError>)
      requires Valid()
      modifies dbConfigs.Values
      ensures Valid() && Views() == old(Views())
      ensures old(Covers(dbConfigs, Views(), Registries()))
      ensures (outcomes, failure, Registries())
              == RunPairs(RulePairs(rule, Keys(rule.stations), dbConfigs.Keys), dbConfigs,
                          old(Views()), old(Registries()), now)
    {
      ghost var views, regs0 := Views(), Registries();
      ValidCovers();
      var keys := Keys(rule.stations);
      outcomes := [];
      var j := 0;
      while j < |keys|
        invariant 0 <= j <= |keys|
        invariant Valid() && Views() == views
        invariant RunPairs(RulePairs(rule, keys[..j], dbConfigs.Keys), dbConfigs, views, regs0, now)
                  == (outcomes, None, Registries())
      {
        var key := keys[j];
        if key in dbConfigs {
          var db := dbConfigs[key];
          ghost var before := Registries();
          assert views[db] == db.View() && before[db] == db.alerts;
          ghost var step := AlertStep(rule, key, views[db], before[db], now);
          label Before:
          var r := CheckAlert(rule, key, db, now);
          AlertsOnly@Before(db);
          RulePairsRun(rule, keys, j, dbConfigs, views, regs0, now, outcomes, before);
          if r.Err? {
            return outcomes, Some(r.error);
          }
          outcomes := outcomes + [Outcome(rule.name, key, r.value)];
          assert RunPairs(RulePairs(rule, keys[..j + 1], dbConfigs.Keys), dbConfigs, views, regs0, now)
                 == (outcomes, None, Registries());
        } else {
          assert RulePairs(rule, keys[..j + 1], dbConfigs.Keys) == RulePairs(rule, keys[..j], dbConfigs.Keys) by {
            RulePairsNext(rule, keys, j, dbConfigs.Keys);
          }
        }
        j := j + 1;
      }
      assert keys[..j] == keys;
      failure := None;
    }

    /** `run_alert_checks`: every enabled rule in order, and for each its
        configured stations in order, is checked once; a fired event is
        registered before the next check, and the escaping ValueError of an
        unparsable `time_ago` aborts the rest of the run. The outcomes, the
        error and every WeatherAlerts table are those of `RunPairs` over the
        whole schedule. */
    method RunAlertChecks(now: int) returns (outcomes: seq<Outcome>, failure: Option<AlertError>)
      requires Valid()
      modifies dbConfigs.Values
      ensures Valid() && Views() == old(Views())
      ensures old(Covers(dbConfigs, Views(), Registries()))
      ensures (outcomes, failure, Registries())
              == RunPairs(Schedule(alerts, dbConfigs.Keys), dbConfigs, old(Views()), old(Registries()), now)
    {
      ghost var views, regs0 := Views(), Registries();
      ValidCovers();
      outcomes := [];
      var i := 0;
      while i < |alerts|
        invariant 0 <= i <= |alerts|
        invariant Valid() && Views() == views
        invariant RunPairs(Schedule(alerts[..i], dbConfigs.Keys), dbConfigs, views, regs0, now)
                  == (outcomes, None, Registries())
      {
        var rule := alerts[i];
        ghost var before := Registries();
        var outs, fail := CheckRule(rule, now);
        ScheduleRun(alerts, i, dbConfigs, views, regs0, now, outcomes, before);
        if fail.Some? {
          return outcomes + outs, fail;
        }
        outcomes := outcomes + outs;
        i := i + 1;
      }
      assert alerts[..i] == alerts;
      failure := None;
    }
  }

  // ---------------------------------------------------------------------
  // The run as a function of the station databases
  // ---------------------------------------------------------------------

  type Registry = map<RegistryKey, CooldownRecord>

  /** What `check_alert` reads from a station database besides its
      WeatherAlerts table; a run never changes it. */
  datatype StationView = StationView(observations: seq<Observation>, columns: set<string>, reachable: bool)

  /** `check_alert` on one station database: the result, and the
      WeatherAlerts table afterwards. In cooldown nothing happens;
      otherwise the result is the decision procedure's, and the table
      changes exactly by registering an event that fired (when the table
      is reachable); the only error is the ValueError of the rule's
      unparsable `time_ago`. */
  function AlertStep(rule: AlertRule, station: string, view: StationView, reg: Registry, now: int)
    : (out: (Result<Option<AlertEvent>, AlertError>, Registry))
    requires RowsHaveColumns(view.observations, view.columns)
    ensures view.reachable && CooldownActive(reg, rule.name, station, rule.cooldown, now) ==> out == (Ok(None), reg)
    ensures !(view.reachable && CooldownActive(reg, rule.name, station, rule.cooldown, now))
            ==> out.0 == Evaluate(rule, view.observations, view.columns, now)
    ensures out.1 == reg || (Fires(out.0) && out.1 == Register(reg, rule.name, station, rule.cooldown, now))
    ensures view.reachable && Fires(out.0) ==> out.1 == Register(reg, rule.name, station, rule.cooldown, now)
    ensures !view.reachable ==> out.1 == reg
    ensures out.0.Err? ==> out.0.error == BadTimeAgo(rule.name, rule.timeAgo) && ParseTimeAgo(rule.timeAgo).Err?
  {
    if view.reachable && CooldownActive(reg, rule.name, station, rule.cooldown, now) then (Ok(None), reg)
    else
      var r := Evaluate(rule, view.observations, view.columns, now);
      ErrorOnlyOnBadTimeAgo(rule, view.observations, view.columns, now);
      (r, if Fires(r) && view.reachable then Register(reg, rule.name, station, rule.cooldown, now) else reg)
  }

  /** Every configured station key names a database whose snapshot and
      WeatherAlerts table are known. */
  predicate Covers(dbs: map<string, StationDb>, views: map<StationDb, StationView>,
                   regs: map<StationDb, Registry>)
  {
    forall k :: k in dbs ==>
      && dbs[k] in views && dbs[k] in regs
      && RowsHaveColumns(views[dbs[k]].observations, views[dbs[k]].columns)
  }

  /** `run_alert_checks` over a list of (rule, station key) pairs: a key
      without a configuration is skipped, and `check_alert` runs on each
      other pair in order against the WeatherAlerts table the earlier pairs
      left behind (two keys may name the same database), until an error
      escapes. The result is the outcomes, that error, and the tables. */
  function RunPairs(pairs: seq<(AlertRule, string)>, dbs: map<string, StationDb>,
                    views: map<StationDb, StationView>, regs: map<StationDb, Registry>, now: int)
    : (out: (seq<Outcome>, Option<AlertError>, map<StationDb, Registry>))
    requires Covers(dbs, views, regs)
    ensures out.2.Keys == regs.Keys && Covers(dbs, views, out.2)
    ensures |out.0| <= |pairs|
    decreases |pairs|
  {
    if pairs == [] then ([], None, regs)
    else
      var rule, key := pairs[0].0, pairs[0].1;
      if key !in dbs then RunPairs(pairs[1..], dbs, views, regs, now)
      else
        var db := dbs[key];
        var step := AlertStep(rule, key, views[db], regs[db], now);
        if step.0.Err? then ([], Some(step.0.error), regs)
        else
          var rest := RunPairs(pairs[1..], dbs, views, regs[db := step.1], now);
          ([Outcome(rule.name, key, step.0.value)] + rest.0, rest.1, rest.2)
  }

  lemma CoversKeys(dbs: map<string, StationDb>, views: map<StationDb, StationView>,
                   regs: map<StationDb, Registry>, regs': map<StationDb, Registry>)
    requires Covers(dbs, views, regs) && regs'.Keys == regs.Keys
    ensures Covers(dbs, views, regs')
  {
    assert forall db :: db in regs <==> db in regs';
  }

  /** Running `a` then `b` is running `a + b`: once `a` fails, `b` is
      never reached. */
  lemma {:induction false} RunPairsAppend(a: seq<(AlertRule, string)>, b: seq<(AlertRule, string)>,
                                          dbs: map<string, StationDb>, views: map<StationDb, StationView>,
                                          regs: map<StationDb, Registry>, now: int)
    requires Covers(dbs, views, regs)
    ensures var first := RunPairs(a, dbs, views, regs, now);
            RunPairs(a + b, dbs, views, regs, now)
            == if first.1.Some? then first
               else var second := RunPairs(b, dbs, views, first.2, now);
                    (first.0 + second.0, second.1, second.2)
    decreases |a|
  {
    if a == [] {
      assert a + b == b;
      assert [] + RunPairs(b, dbs, views, regs, now).0 == RunPairs(b, dbs, views, regs, now).0;
    } else {
      assert (a + b)[0] == a[0] && (a + b)[1..] == a[1..] + b;
      var rule, key := a[0].0, a[0].1;
      if key !in dbs {
        RunPairsAppend(a[1..], b, dbs, views, regs, now);
      } else {
        var db := dbs[key];
        var step := AlertStep(rule, key, views[db], regs[db], now);
        RunPairsHead(a, dbs, views, regs, now);
        RunPairsHead(a + b, dbs, views, regs, now);
        if step.0.Ok? {
          var regs' := regs[db := step.1];
          CoversKeys(dbs, views, regs, regs');
          RunPairsAppend(a[1..], b, dbs, views, regs', now);
          var o := Outcome(rule.name, key, step.0.value);
          var rest := RunPairs(a[1..], dbs, views, regs', now);
          if rest.1.None? {
            var second := RunPairs(b, dbs, views, rest.2, now);
            assert [o] + (rest.0 + second.0) == ([o] + rest.0) + second.0;
          }
        }
      }
    }
  }

  /** Continuing a run that has not failed: the pairs `b` start from the
      tables the pairs `a` left. */
  lemma RunPairsThen(a: seq<(AlertRule, string)>, b: seq<(AlertRule, string)>,
                     dbs: map<string, StationDb>, views: map<StationDb, StationView>,
                     regs: map<StationDb, Registry>, now: int,
                     outs: seq<Outcome>, mid: map<StationDb, Registry>)
    requires Covers(dbs, views, regs)
    requires RunPairs(a, dbs, views, regs, now) == (outs, None, mid)
    ensures Covers(dbs, views, mid)
    ensures var second := RunPairs(b, dbs, views, mid, now);
            RunPairs(a + b, dbs, views, regs, now) == (outs + second.0, second.1, second.2)
  {
    RunPairsAppend(a, b, dbs, views, regs, now);
  }

  /** A run that failed on a prefix of the pairs ends there. */
  lemma RunPairsStop(a: seq<(AlertRule, string)>, whole: seq<(AlertRule, string)>,
                     dbs: map<string, StationDb>, views: map<StationDb, StationView>,
                     regs: map<StationDb, Registry>, now: int)
    requires Covers(dbs, views, regs)
    requires |a| <= |whole| && whole[..|a|] == a
    requires RunPairs(a, dbs, views, regs, now).1.Some?
    ensures RunPairs(whole, dbs, views, regs, now) == RunPairs(a, dbs, views, regs, now)
  {
    assert whole == a + whole[|a|..];
    RunPairsAppend(a, whole[|a|..], dbs, views, regs, now);
  }

  /** One more station key of a rule, in a run that has not failed yet. */
  lemma RulePairsRun(rule: AlertRule, keys: seq<string>, j: nat, dbs: map<string, StationDb>,
                     views: map<StationDb, StationView>, regs: map<StationDb, Registry>, now: int,
                     outs: seq<Outcome>, mid: map<StationDb, Registry>)
    requires j < |keys| && keys[j] in dbs && Covers(dbs, views, regs)
    requires RunPairs(RulePairs(rule, keys[..j], dbs.Keys), dbs, views, regs, now) == (outs, None, mid)
    ensures Covers(dbs, views, mid)
    ensures var db := dbs[keys[j]];
            var step := AlertStep(rule, keys[j], views[db], mid[db], now);
            if step.0.Err? then
              RunPairs(RulePairs(rule, keys, dbs.Keys), dbs, views, regs, now) == (outs, Some(step.0.error), mid)
            else
              RunPairs(RulePairs(rule, keys[..j + 1], dbs.Keys), dbs, views, regs, now)
              == (outs + [Outcome(rule.name, keys[j], step.0.value)], None, mid[db := step.1])
  {
    var done := RulePairs(rule, keys[..j], dbs.Keys);
    var p := (rule, keys[j]);
    RulePairsNext(rule, keys, j, dbs.Keys);
    RunPairsThen(done, [p], dbs, views, regs, now, outs, mid);
    RunPairsOne(p, dbs, views, mid, now);
    var db := dbs[keys[j]];
    var step := AlertStep(rule, keys[j], views[db], mid[db], now);
    if step.0.Err? {
      assert outs + [] == outs;
      RulePairsPrefix(rule, keys, j + 1, dbs.Keys);
      RunPairsStop(done + [p], RulePairs(rule, keys, dbs.Keys), dbs, views, regs, now);
    }
  }

  /** One more rule, in a run that has not failed yet. */
  lemma ScheduleRun(rules: seq<AlertRule>, i: nat, dbs: map<string, StationDb>,
                    views: map<StationDb, StationView>, regs: map<StationDb, Registry>, now: int,
                    outs: seq<Outcome>, mid: map<StationDb, Registry>)
    requires i < |rules| && Covers(dbs, views, regs)
    requires RunPairs(Schedule(rules[..i], dbs.Keys), dbs, views, regs, now) == (outs, None, mid)
    ensures Covers(dbs, views, mid)
    ensures var second := RunPairs(RulePairs(rules[i], Keys(rules[i].stations), dbs.Keys), dbs, views, mid, now);
            if second.1.Some? then
              RunPairs(Schedule(rules, dbs.Keys), dbs, views, regs, now) == (outs + second.0, second.1, second.2)
            else
              RunPairs(Schedule(rules[..i + 1], dbs.Keys), dbs, views, regs, now) == (outs + second.0, None, second.2)
  {
    var done := Schedule(rules[..i], dbs.Keys);
    var pairs := RulePairs(rules[i], Keys(rules[i].stations), dbs.Keys);
    ScheduleStep(rules, i, dbs.Keys);
    RunPairsThen(done, pairs, dbs, views, regs, now, outs, mid);
    if RunPairs(pairs, dbs, views, mid, now).1.Some? {
      SchedulePrefix(rules, i + 1, dbs.Keys);
      RunPairsStop(done + pairs, Schedule(rules, dbs.Keys), dbs, views, regs, now);
    }
  }

  /** A single pair. */
  lemma RunPairsOne(p: (AlertRule, string), dbs: map<string, StationDb>, views: map<StationDb, StationView>,
                    regs: map<StationDb, Registry>, now: int)
    requires Covers(dbs, views, regs) && p.1 in dbs
    ensures var db := dbs[p.1];
            var step := AlertStep(p.0, p.1, views[db], regs[db], now);
            RunPairs([p], dbs, views, regs, now)
            == if step.0.Err? then ([], Some(step.0.error), regs)
               else ([Outcome(p.0.name, p.1, step.0.value)], None, regs[db := step.1])
  {
    assert [p][1..] == [];
    var db := dbs[p.1];
    var step := AlertStep(p.0, p.1, views[db], regs[db], now);
    if step.0.Ok? {
      assert RunPairs([], dbs, views, regs[db := step.1], now) == ([], None, regs[db := step.1]);
      assert [Outcome(p.0.name, p.1, step.0.value)] + [] == [Outcome(p.0.name, p.1, step.0.value)];
    }
  }

  /** Each outcome is labelled with the rule and station of its pair. */
  predicate Labels(outcomes: seq<Outcome>, pairs: seq<(AlertRule, string)>)
  {
    |outcomes| == |pairs|
    && forall k :: 0 <= k < |outcomes| ==>
         outcomes[k].rule == pairs[k].0.name && outcomes[k].station == pairs[k].1
  }

  /** Over configured pairs, the run gives one outcome per pair, in order;
      it stops short exactly when it fails, and then at a pair whose rule
      has an unparsable `time_ago`, with that rule's ValueError. */
  lemma {:induction false} RunPairsLabels(pairs: seq<(AlertRule, string)>, dbs: map<string, StationDb>,
                                          views: map<StationDb, StationView>, regs: map<StationDb, Registry>,
                                          now: int)
    requires Covers(dbs, views, regs)
    requires forall i :: 0 <= i < |pairs| ==> pairs[i].1 in dbs
    ensures var out := RunPairs(pairs, dbs, views, regs, now);
            Labels(out.0, pairs[..|out.0|])
    decreases |pairs|
  {
    if pairs != [] {
      var p := pairs[0];
      var db := dbs[p.1];
      var step := AlertStep(p.0, p.1, views[db], regs[db], now);
      if step.0.Ok? {
        var regs' := regs[db := step.1];
        CoversKeys(dbs, views, regs, regs');
        RunPairsLabels(pairs[1..], dbs, views, regs', now);
        var rest := RunPairs(pairs[1..], dbs, views, regs', now);
        RunPairsHead(pairs, dbs, views, regs, now);
        LabelsCons(Outcome(p.0.name, p.1, step.0.value), p, rest.0, pairs[1..][..|rest.0|]);
        assert pairs[..|rest.0| + 1] == [p] + pairs[1..][..|rest.0|];
      }
    }
  }

  /** Over configured pairs, the run stops short exactly when it fails, and
      then at a pair whose rule has an unparsable `time_ago`, with that
      rule's ValueError. */
  lemma {:induction false} RunPairsFailure(pairs: seq<(AlertRule, string)>, dbs: map<string, StationDb>,
                                           views: map<StationDb, StationView>, regs: map<StationDb, Registry>,
                                           now: int)
    requires Covers(dbs, views, regs)
    requires forall i :: 0 <= i < |pairs| ==> pairs[i].1 in dbs
    ensures var out := RunPairs(pairs, dbs, views, regs, now);
            && (out.1.None? <==> |out.0| == |pairs|)
            && (out.1.Some? ==>
                  var p := pairs[|out.0|];
                  out.1.value == BadTimeAgo(p.0.name, p.0.timeAgo) && ParseTimeAgo(p.0.timeAgo).Err?)
    decreases |pairs|
  {
    if pairs != [] {
      var p := pairs[0];
      var db := dbs[p.1];
      var step := AlertStep(p.0, p.1, views[db], regs[db], now);
      if step.0.Ok? {
        var regs' := regs[db := step.1];
        CoversKeys(dbs, views, regs, regs');
        RunPairsFailure(pairs[1..], dbs, views, regs', now);
        var rest := RunPairs(pairs[1..], dbs, views, regs', now);
        RunPairsHead(pairs, dbs, views, regs, now);
        if rest.1.Some? {
          assert pairs[|rest.0| + 1] == pairs[1..][|rest.0|];
        }
      }
    }
  }

  /** The first pair of a run, when it is configured. */
  lemma RunPairsHead(pairs: seq<(AlertRule, string)>, dbs: map<string, StationDb>,
                     views: map<StationDb, StationView>, regs: map<StationDb, Registry>, now: int)
    requires Covers(dbs, views, regs) && pairs != [] && pairs[0].1 in dbs
    ensures var db := dbs[pairs[0].1];
            var step := AlertStep(pairs[0].0, pairs[0].1, views[db], regs[db], now);
            RunPairs(pairs, dbs, views, regs, now)
            == if step.0.Err? then ([], Some(step.0.error), regs)
               else
                 var rest := RunPairs(pairs[1..], dbs, views, regs[db := step.1], now);
                 ([Outcome(pairs[0].0.name, pairs[0].1, step.0.value)] + rest.0, rest.1, rest.2)
  {
  }

  lemma LabelsCons(o: Outcome, p: (AlertRule, string), outcomes: seq<Outcome>, pairs: seq<(AlertRule, string)>)
    requires Labels(outcomes, pairs) && o.rule == p.0.name && o.station == p.1
    ensures Labels([o] + outcomes, [p] + pairs)
  {
    assert forall k :: 0 < k <= |outcomes| ==> ([o] + outcomes)[k] == outcomes[k - 1] && ([p] + pairs)[k] == pairs[k - 1];
  }

  /** The whole run: one outcome per scheduled pair, in schedule order,
      unless a ValueError stops it at a pair whose rule has an unparsable
      `time_ago`. */
  lemma ScheduleLabels(rules: seq<AlertRule>, dbs: map<string, StationDb>, views: map<StationDb, StationView>,
                    regs: map<StationDb, Registry>, now: int)
    requires Covers(dbs, views, regs)
    ensures var sched := Schedule(rules, dbs.Keys);
            var out := RunPairs(sched, dbs, views, regs, now);
            && Labels(out.0, sched[..|out.0|])
            && (out.1.None? <==> |out.0| == |sched|)
            && (out.1.Some? ==> ParseTimeAgo(sched[|out.0|].0.timeAgo).Err?)
  {
    ScheduleMembers(rules, dbs.Keys);
    assert forall i :: 0 <= i < |Schedule(rules, dbs.Keys)| ==> Schedule(rules, dbs.Keys)[i] in Schedule(rules, dbs.Keys);
    RunPairsLabels(Schedule(rules, dbs.Keys), dbs, views, regs, now);
    RunPairsFailure(Schedule(rules, dbs.Keys), dbs, views, regs, now);
  }

  /** The schedule of a prefix of the rules is a prefix of the schedule. */
  lemma {:induction false} SchedulePrefix(rules: seq<AlertRule>, n: nat, configured: set<string>)
    requires n <= |rules|
    ensures |Schedule(rules[..n], configured)| <= |Schedule(rules, configured)|
    ensures Schedule(rules, configured)[..|Schedule(rules[..n], configured)|] == Schedule(rules[..n], configured)
    decreases |rules|
  {
    if n == |rules| {
      assert rules[..n] == rules;
    } else {
      var init := rules[..|rules| - 1];
      assert init[..n] == rules[..n];
      SchedulePrefix(init, n, configured);
    }
  }

  /** The pairs of rule `i` follow those of the rules before it. */
  lemma ScheduleStep(rules: seq<AlertRule>, i: nat, configured: set<string>)
    requires i < |rules|
    ensures Schedule(rules[..i + 1], configured)
            == Schedule(rules[..i], configured) + RulePairs(rules[i], Keys(rules[i].stations), configured)
  {
    assert rules[..i + 1][..i] == rules[..i];
  }

  /** Likewise for the pairs of one rule over a prefix of its keys. */
  lemma {:induction false} RulePairsPrefix(rule: AlertRule, keys: seq<string>, n: nat, configured: set<string>)
    requires n <= |keys|
    ensures |RulePairs(rule, keys[..n], configured)| <= |RulePairs(rule, keys, configured)|
    ensures RulePairs(rule, keys, configured)[..|RulePairs(rule, keys[..n], configured)|]
            == RulePairs(rule, keys[..n], configured)
    decreases |keys|
  {
    if n == |keys| {
      assert keys[..n] == keys;
    } else {
      var init := keys[..|keys| - 1];
      assert init[..n] == keys[..n];
      RulePairsPrefix(rule, init, n, configured);
    }
  }
}
