/**
 * The alert query filters over an in-memory store: the alert table, the
 * location table and the many-to-many join table between them.
 */
module Services {
  import opened Wrappers
  import opened Models
  import opened Seqs

  /** The database as the filters see it. `links` holds the rows of the
      Alert/Location join table as (location id, alert id) pairs. */
  datatype Store = Store(
    alerts: seq<Alert>,
    locations: seq<Location>,
    links: set<(int, int)>)

  /** The primary keys of the alert table. */
  function AlertIds(st: Store): set<int>
  {
    set i | 0 <= i < |st.alerts| :: st.alerts[i].id
  }

  /** The primary keys of the location table. */
  function LocationIds(st: Store): set<int>
  {
    set i | 0 <= i < |st.locations| :: st.locations[i].id
  }

  /** No two locations of `s` share a name. */
  predicate UniqueNames(s: seq<Location>)
  {
    forall i, j :: 0 <= i < j < |s| ==> s[i].name != s[j].name
  }

  /** Reordering the locations keeps their names unique. */
  lemma UniqueNamesPermutation(a: seq<Location>, b: seq<Location>)
    requires UniqueNames(a) && multiset(a) == multiset(b)
    ensures UniqueNames(b)
  {
    DistinctIffOnce(a);
    DistinctIffOnce(b);
    forall i, j | 0 <= i < j < |b| ensures b[i].name != b[j].name {
      assert b[i] in multiset(a) && b[j] in multiset(a);
      var i' :| 0 <= i' < |a| && a[i'] == b[i];
      var j' :| 0 <= j' < |a| && a[j'] == b[j];
      assert i' != j';
    }
  }

  /** With unique names, a name picks out at most one location of `s`. */
  lemma NamesIdentify(s: seq<Location>)
    ensures UniqueNames(s) ==>
      forall l1, l2 :: l1 in s && l2 in s && l1.name == l2.name ==> l1 == l2
  {
    if UniqueNames(s) {
      forall l1, l2 | l1 in s && l2 in s && l1.name == l2.name ensures l1 == l2 {
        var i :| 0 <= i < |s| && s[i] == l1;
        var j :| 0 <= j < |s| && s[j] == l2;
        assert !(i < j) && !(j < i);
      }
    }
  }

  /** What the database guarantees of every store: primary keys are unique,
      `Location.name` is unique, and join rows point at existing records.
      A stored location is therefore identified by its name. */
  predicate Valid(st: Store)
    ensures Valid(st) ==>
      forall l1, l2 :: l1 in st.locations && l2 in st.locations && l1.name == l2.name ==> l1 == l2
  {
    NamesIdentify(st.locations);
    && (forall i, j :: 0 <= i < j < |st.alerts| ==> st.alerts[i].id != st.alerts[j].id)
    && (forall i, j :: 0 <= i < j < |st.locations| ==> st.locations[i].id != st.locations[j].id)
    && UniqueNames(st.locations)
    && (forall link :: link in st.links ==> link.0 in LocationIds(st) && link.1 in AlertIds(st))
  }

  /** The two ways a caller names a location: a `Location` value or its id. */
  datatype LocRef = Inst(loc: Location) | Id(id: int)

  /** The key the query compares: a `Location` value is matched by its
      primary key, as `locations=location` does. */
  function LocationId(ref: LocRef): int
  {
    match ref
    case Inst(l) => l.id
    case Id(i) => i
  }

  /** The alert `a` is linked to the location `ref` names. */
  predicate Associated(st: Store, ref: LocRef, a: Alert)
  {
    (LocationId(ref), a.id) in st.links
  }

  /** In a valid store each alert record occurs once. */
  lemma ValidAlertsOnce(st: Store)
    ensures Valid(st) ==> forall a :: multiset(st.alerts)[a] <= 1
  {
    DistinctIffOnce(st.alerts);
  }

  /** Filtering keeps the newest-first order. */
  lemma {:induction false} FilterNewestFirst(s: seq<Alert>, p: Alert -> bool)
    requires NewestFirst(s)
    ensures NewestFirst(Filter(s, p))
  {
    if s != [] {
      FilterNewestFirst(s[1..], p);
      assert s == [s[0]] + s[1..];
      if p(s[0]) {
        NewestFirstHead(s);
        NewestFirstCons(s[0], Filter(s[1..], p));
      }
    }
  }

  /** `Alert.objects`: the alert table in its default order. */
  function AllAlerts(st: Store): (r: seq<Alert>)
    ensures NewestFirst(r)
    ensures multiset(r) == multiset(st.alerts)
    ensures forall a :: a in r <==> a in st.alerts
  {
    var r := SortNewestFirst(st.alerts);
    assert forall a :: a in r <==> a in multiset(st.alerts);
    r
  }

  /** `Location.objects`: the location table in its default order; in a
      valid store the names are strictly ascending. */
  function AllLocations(st: Store): (r: seq<Location>)
    ensures ByName(r)
    ensures multiset(r) == multiset(st.locations)
    ensures Valid(st) ==> UniqueNames(r)
  {
    var r := SortByName(st.locations);
    assert Valid(st) ==> UniqueNames(r) by {
      if Valid(st) {
        UniqueNamesPermutation(st.locations, r);
      }
    }
    r
  }

  /** `severities` is truthy: given and not empty. */
  predicate SeveritiesGiven(severities: Option<seq<string>>)
  {
    severities.Some? && |severities.value| > 0
  }

  /** The alert passes the severity restriction; `None` and `[]` impose none. */
  predicate SeverityAllowed(severities: Option<seq<string>>, a: Alert)
  {
    severities.None? || |severities.value| == 0 || a.alertType in severities.value
  }

  /** `filter_alerts_by_location`: the location's alerts, then, when
      `severities` is truthy, only those whose type is listed. */
  function FilterAlertsByLocation(st: Store, ref: LocRef, severities: Option<seq<string>>): (r: seq<Alert>)
    ensures forall a :: a in r <==>
      a in st.alerts && Associated(st, ref, a) && SeverityAllowed(severities, a)
    ensures NewestFirst(r)
    ensures forall a :: multiset(r)[a] <= multiset(st.alerts)[a]
    ensures Valid(st) ==> forall a :: multiset(r)[a] <= 1
  {
    var id := LocationId(ref);
    var all := AllAlerts(st);
    var located := Filter(all, (a: Alert) => (id, a.id) in st.links);
    FilterNewestFirst(all, (a: Alert) => (id, a.id) in st.links);
    ValidAlertsOnce(st);
    if SeveritiesGiven(severities) then
      FilterNewestFirst(located, (a: Alert) => a.alertType in severities.value);
      Filter(located, (a: Alert) => a.alertType in severities.value)
    else located
  }

  /** `filter_alerts_by_severity`: every alert whose type is listed, linked
      to a location or not. */
  function FilterAlertsBySeverity(st: Store, severities: seq<string>): (r: seq<Alert>)
    ensures forall a :: a in r <==> a in st.alerts && a.alertType in severities
    ensures NewestFirst(r)
    ensures forall a :: multiset(r)[a] <= multiset(st.alerts)[a]
    ensures Valid(st) ==> forall a :: multiset(r)[a] <= 1
  {
    FilterNewestFirst(AllAlerts(st), (a: Alert) => a.alertType in severities);
    ValidAlertsOnce(st);
    Filter(AllAlerts(st), (a: Alert) => a.alertType in severities)
  }

  /** `get_active_alerts_for_location`: the location's alerts that are active. */
  function GetActiveAlertsForLocation(st: Store, ref: LocRef): (r: seq<Alert>)
    ensures forall a :: a in r <==> a in st.alerts && Associated(st, ref, a) && a.isActive
    ensures NewestFirst(r)
    ensures forall a :: multiset(r)[a] <= multiset(st.alerts)[a]
    ensures Valid(st) ==> forall a :: multiset(r)[a] <= 1
  {
    var id := LocationId(ref);
    FilterNewestFirst(AllAlerts(st), (a: Alert) => (id, a.id) in st.links && a.isActive);
    ValidAlertsOnce(st);
    Filter(AllAlerts(st), (a: Alert) => (id, a.id) in st.links && a.isActive)
  }

  /** Naming a location by value or by its id gives the same alerts; so
      does any value carrying the same id. */
  lemma ValueOrIdSameResult(st: Store, l: Location, severities: Option<seq<string>>)
    ensures FilterAlertsByLocation(st, Inst(l), severities) == FilterAlertsByLocation(st, Id(l.id), severities)
    ensures GetActiveAlertsForLocation(st, Inst(l)) == GetActiveAlertsForLocation(st, Id(l.id))
  {
  }

  /** An empty `severities` list is no restriction, just like `None`. */
  lemma EmptySeveritiesMeanAll(st: Store, ref: LocRef)
    ensures FilterAlertsByLocation(st, ref, Some([])) == FilterAlertsByLocation(st, ref, None)
  {
  }

  /** A severity restriction only removes alerts from the location's list,
      which it filters in place: the restricted list is the unrestricted one
      with the unlisted types dropped. */
  lemma SeverityRestrictsLocationList(st: Store, ref: LocRef, severities: seq<string>)
    requires |severities| > 0
    ensures FilterAlertsByLocation(st, ref, Some(severities))
      == Filter(FilterAlertsByLocation(st, ref, None), (a: Alert) => a.alertType in severities)
    ensures |FilterAlertsByLocation(st, ref, Some(severities))| <= |FilterAlertsByLocation(st, ref, None)|
  {
  }

  /** Between two non-empty restrictions, listing more types never yields
      fewer alerts. (From `[]` to a non-empty list the result can shrink,
      since `[]` means no restriction: see PolicyExample.) */
  lemma {:induction false} MoreSeveritiesMoreAlerts(st: Store, ref: LocRef, s1: seq<string>, s2: seq<string>)
    requires |s1| > 0
    requires forall t :: t in s1 ==> t in s2
    ensures forall a :: a in FilterAlertsByLocation(st, ref, Some(s1)) ==> a in FilterAlertsByLocation(st, ref, Some(s2))
    ensures |FilterAlertsByLocation(st, ref, Some(s1))| <= |FilterAlertsByLocation(st, ref, Some(s2))|
  {
    var id := LocationId(ref);
    var located := Filter(AllAlerts(st), (a: Alert) => (id, a.id) in st.links);
    FilterMonotone(located, (a: Alert) => a.alertType in s1, (a: Alert) => a.alertType in s2);
  }

  /** When every stored alert carries one of the three severities, as
      `Alert.clean` demands, listing all three restricts nothing. */
  lemma AllSeveritiesRestrictNothing(st: Store, ref: LocRef)
    requires forall a :: a in st.alerts ==> IsSeverity(a.alertType)
    ensures FilterAlertsByLocation(st, ref, Some(["info", "warning", "error"]))
      == FilterAlertsByLocation(st, ref, None)
  {
    var id := LocationId(ref);
    var located := Filter(AllAlerts(st), (a: Alert) => (id, a.id) in st.links);
    FilterAll(located, (a: Alert) => a.alertType in ["info", "warning", "error"]);
  }

  /** An id that names no stored location has no alerts. */
  lemma UnknownLocationHasNoAlerts(st: Store, ref: LocRef, severities: Option<seq<string>>)
    requires Valid(st)
    requires LocationId(ref) !in LocationIds(st)
    ensures FilterAlertsByLocation(st, ref, severities) == []
    ensures GetActiveAlertsForLocation(st, ref) == []
  {
    var r := FilterAlertsByLocation(st, ref, severities);
    var q := GetActiveAlertsForLocation(st, ref);
    assert forall a :: a !in r && a !in q;
  }

  /** The severity filter does not look at locations or at the join table. */
  lemma SeverityIgnoresLocations(st: Store, locations: seq<Location>, links: set<(int, int)>, severities: seq<string>)
    ensures FilterAlertsBySeverity(st, severities)
      == FilterAlertsBySeverity(st.(locations := locations, links := links), severities)
  {
  }

  /** Unlike the location filter, the severity filter given `[]` matches nothing. */
  lemma NoSeveritiesNoAlerts(st: Store)
    ensures FilterAlertsBySeverity(st, []) == []
  {
    FilterNone(AllAlerts(st), (a: Alert) => a.alertType in []);
  }

  /** The active alerts of a location are its unrestricted alerts with the
      inactive ones dropped. */
  lemma ActiveIsLocationListRestricted(st: Store, ref: LocRef)
    ensures GetActiveAlertsForLocation(st, ref)
      == Filter(FilterAlertsByLocation(st, ref, None), (a: Alert) => a.isActive)
  {
    var id := LocationId(ref);
    FilterTwice(AllAlerts(st), (a: Alert) => (id, a.id) in st.links, (a: Alert) => a.isActive,
      (a: Alert) => (id, a.id) in st.links && a.isActive);
  }

  /** In a valid store a location's display text identifies it. */
  lemma LocationStrIdentifies(st: Store, l1: Location, l2: Location)
    requires Valid(st)
    requires l1 in st.locations && l2 in st.locations
    requires LocationStr(l1) == LocationStr(l2)
    ensures l1 == l2
  {
  }

  /** A store with one `info` alert linked to location 1. */
  function OneInfoAlertStore(): Store
  {
    Store([Alert(1, "Info", "Msg", "info", 0, true)], [NewLocation(1, "New York")], {(1, 1)})
  }

  /** The falsy-list policy at work: `[]` lists the `info` alert, while the
      non-empty `["error"]` lists nothing. */
  lemma PolicyExample()
    ensures Alert(1, "Info", "Msg", "info", 0, true) in FilterAlertsByLocation(OneInfoAlertStore(), Id(1), Some([]))
    ensures FilterAlertsByLocation(OneInfoAlertStore(), Id(1), Some(["error"])) == []
  {
    var st := OneInfoAlertStore();
    assert |st.alerts[0].alertType| == 4;
    assert forall a :: a in st.alerts ==> a.alertType !in ["error"];
    var r := FilterAlertsByLocation(st, Id(1), Some(["error"]));
    assert forall a :: a !in r;
  }

  /** A location whose alerts are one warning alert and possibly one error
      alert: asking for warnings by location value returns exactly the
      warning alert. */
  lemma WarningAndErrorScenario(st: Store, loc: Location, w: Alert, e: Alert)
    requires Valid(st)
    requires w in st.alerts && Associated(st, Inst(loc), w) && w.alertType == "warning"
    requires forall x :: x in st.alerts && Associated(st, Inst(loc), x) ==> x == w || x == e
    requires e.alertType == "error"
    ensures FilterAlertsByLocation(st, Inst(loc), Some(["warning"])) == [w]
  {
    assert |e.alertType| == 5;
    assert e.alertType !in ["warning"];
    var r := FilterAlertsByLocation(st, Inst(loc), Some(["warning"]));
    assert w in r;
    assert forall x :: x in r ==> x == w;
    OnlyElementOnce(r, w);
  }
}
