# Alerts notice board: records, validators and query filters

This project models the core of a small Django app in which users read alerts
tagged by severity (`info`, `warning`, `error`) and linked to locations. The
core is two pieces of logic:

- **The records** (`alerts/models.py`). `Alert`, `Location` and `Profile`
  have field defaults and `__str__` texts. Listings come back in a default
  order: alerts newest first, locations by name. Location names are unique.
  `Alert.clean` and `Location.clean` are validators that raise on the first
  failing check.
- **The query filters** (`alerts/services.py`). These narrow the alert table
  by location, by severity and by the active flag. They use the
  many-to-many relation between alerts and locations.

Everything is modelled as datatypes, pure functions and lemmas. That is the
shape of the source: guard checks, string formatting, and chained `filter`
calls with no loops and no in-place updates.

Files:

- `wrappers.dfy` (`Wrappers`): `Option`, which stands for a nullable column
  or an optional argument.
- `text.dfy` (`Text`): Python's `str.strip()` over the code points that
  `str.isspace()` accepts, and the code-point order used for sorting names.
- `seqs.dfy` (`Seqs`): `Filter`, which keeps the elements that pass a test in
  their order, plus its algebra (two filters in a row, monotonicity,
  occurrence counts).
- `models.dfy` (`Models`): the three records, `clean` as a function that
  returns `Pass` or `Fail(error)`, the `__str__` texts with their inverses,
  the field defaults, and the two default orderings as stable insertion
  sorts.
- `services.dfy` (`Services`): the store and the three filters, with lemmas
  connecting them.

The store is `Store(alerts, locations, links)`. `links` is the join table,
held as a set of (location id, alert id) pairs. `Valid(st)` states what the
database guarantees: unique primary keys, unique location names, and join
rows that point at existing records. A query result is a `seq<Alert>`. It is
the default newest-first listing, filtered the way the source chains
`filter(...)`. A location argument is `LocRef = Inst(Location) | Id(int)`.
A `Location` value is matched by its primary key, as Django's
`locations=location` does.

Decisions in the model:

- Coordinates are `real`. Django stores them as `Decimal`, which is exact; only finite values are modelled.
- The guard `if self.latitude and (...)` is modelled literally: a coordinate
  that is `None` or zero is not range-checked. Zero is inside both ranges,
  so the outcome matches the plain rule "absent, or within the bounds".
  `CleanLocation`'s contract states that plain rule.
- `severities` is `Option<seq<string>>`. `None` stands for Python's `None`.
  In `filter_alerts_by_location` the guard `if severities:` makes both
  `None` and `[]` mean "no restriction". `filter_alerts_by_severity([])`
  returns nothing, because Django's `alert_type__in=[]` matches no row.
- Monotonicity in `severities` holds only between non-empty lists. Going
  from `[]` to a non-empty list can shrink the result, because `[]` means
  "all". `MoreSeveritiesMoreAlerts` therefore requires a non-empty smaller
  list, and `PolicyExample` shows the shrinking case.
- Ties in `created_at` have no defined database order. The model keeps
  those alerts in store order (the sort is stable). The contracts promise
  only the newest-first property, which holds on any tie order.
- The filters are functions over an immutable store value. No filter can
  change an alert, a location or a join row, and every alert a filter
  returns is a stored record (the membership `ensures` says `a in st.alerts`).

## Model

| member | source | states |
|---|---|---|
| `Text.Strip` | alerts/models.py:19-21 | What `strip()` leaves is empty exactly when every character is whitespace; otherwise it starts and ends with a non-whitespace character |
| `Text.LStrip` | alerts/models.py:19 | The left strip is a suffix of the input that is empty or starts with a non-whitespace character, and everything it drops is whitespace |
| `Text.RStrip` | alerts/models.py:21 | The right strip is a prefix of the input that is empty or ends with a non-whitespace character, and everything it drops is whitespace |
| `Text.BlankIffNoVisibleChar` | alerts/models.py:41 | `not s.strip()` holds exactly when `s` has no non-whitespace character |
| `Text.LexLeTotal` | alerts/models.py:51-52 | Any two names are comparable under the name order |
| `Text.LexLeTransitive` | alerts/models.py:51-52 | The name order is transitive |
| `Text.LexLeAntisymmetric` | alerts/models.py:51-52 | Two names each at most the other are equal, so distinct names sort strictly |
| `Models.AlertTypeKeysAreSeverities` | alerts/models.py:6-10 | A type is a key of `dict(ALERT_TYPES)` exactly when it is `info`, `warning` or `error` |
| `Models.ErrorMessage` | alerts/models.py:20-46 | Each `raise` text is a non-empty sentence ending in a full stop |
| `Models.ErrorMessagesDistinct` | alerts/models.py:18-46 | Each validation failure is raised with a text no other failure uses |
| `Models.CleanAlert` | alerts/models.py:18-24 | Passes exactly when the title and the message each hold a non-whitespace character and the type is one of the three; otherwise it reports the first failure in the order title, message, type (so a blank title wins over a bad type) |
| `Models.CleanLocation` | alerts/models.py:40-46 | Passes exactly when the name holds a non-whitespace character and each coordinate is absent or within [-90, 90] or [-180, 180], inclusive; a blank name is reported whatever the coordinates; then latitude, then longitude |
| `Models.ZeroCoordinateNeverRejected` | alerts/models.py:43-46 | A latitude or longitude of exactly zero, which the truthiness guard skips, is never the reported failure |
| `Models.NewAlert` | alerts/models.py:14-16 | A new alert has type `info` and is active, and keeps the given id, title, message and timestamp |
| `Models.NewAlertValidIff` | alerts/models.py:14-24 | A new alert with the default type validates exactly when its title and message are not blank |
| `Models.NewLocation` | alerts/models.py:35-37 | A new location has an empty address and no coordinates |
| `Models.AlertStr` | alerts/models.py:26-27 | `str(alert)` starts with the title and ends with ` (type)`, and is three characters longer than the two together |
| `Models.AlertStrRoundTrip` | alerts/models.py:26-27 | For an alert with a valid type, the text `title (type)` can be read back into exactly that title and type |
| `Models.LocationStr` | alerts/models.py:48-49 | `str(location)` is the location's name |
| `Models.ProfileStr` | alerts/models.py:59-60 | `str(profile)` starts with the user name and ends with `'s profile` |
| `Models.ProfileStrRoundTrip` | alerts/models.py:59-60 | The text `username's profile` can be read back into exactly that user name |
| `Models.InsertNewest` | alerts/models.py:29-30 | Inserting into a newest-first list keeps it newest first and adds exactly that alert |
| `Models.SortNewestFirst` | alerts/models.py:29-30 | The default alert order is newest `created_at` first and a permutation of the table |
| `Models.InsertByName` | alerts/models.py:51-52 | Inserting into a name-ordered list keeps it ordered and adds exactly that location |
| `Models.SortByName` | alerts/models.py:51-52 | The default location order is names ascending and a permutation of the table |
| `Services.Valid` | alerts/models.py:34-38 | A store the database can hold: unique primary keys, unique location names, join rows that point at stored records; in such a store a name identifies at most one location |
| `Services.AllAlerts` | alerts/models.py:29-30 | `Alert.objects` lists every stored alert, and only those, newest first |
| `Services.AllLocations` | alerts/models.py:34-52 | `Location.objects` lists the location table by name; in a valid store, where names are unique, names strictly ascend |
| `Services.UniqueNamesPermutation` | alerts/models.py:34 | Listing the locations in another order keeps their names unique |
| `Services.LocationStrIdentifies` | alerts/models.py:34-49 | In a valid store, two stored locations with the same display text are the same location |
| `Seqs.Filter` | alerts/services.py:14-19 | A filtered queryset keeps each record that passes the test exactly as often as it occurs, drops every record that fails it, and is never longer |
| `Seqs.FilterTwice` | alerts/services.py:41-44 | Filtering by two conditions in a row equals one filter by both conditions |
| `Seqs.FilterMonotone` | alerts/services.py:18-19 | A test that admits more never yields fewer records |
| `Services.FilterNewestFirst` | alerts/services.py:14-19 | Filtering a newest-first listing keeps it newest first |
| `Services.FilterAlertsByLocation` | alerts/services.py:5-21 | Returns exactly the stored alerts linked to the location and, when `severities` is truthy, of a listed type; newest first; each alert at most once in a valid store |
| `Services.FilterAlertsBySeverity` | alerts/services.py:24-31 | Returns exactly the stored alerts whose type is listed, linked or not; newest first; each at most once in a valid store |
| `Services.GetActiveAlertsForLocation` | alerts/services.py:34-44 | Returns exactly the stored alerts linked to the location that are active; newest first; each at most once in a valid store |
| `Services.ValueOrIdSameResult` | alerts/services.py:13-16 | Passing a `Location` value or its id gives the same result, with or without severities, and for the active filter too |
| `Services.EmptySeveritiesMeanAll` | alerts/services.py:18 | `severities=[]` gives the same result as `severities=None` |
| `Services.SeverityRestrictsLocationList` | alerts/services.py:18-19 | With non-empty severities, the result is the unrestricted location result with the unlisted types dropped, in the same order, and never longer |
| `Services.MoreSeveritiesMoreAlerts` | alerts/services.py:18-19 | Between two non-empty severity lists, the larger one keeps every alert the smaller keeps and never yields fewer |
| `Services.AllSeveritiesRestrictNothing` | alerts/services.py:18-19 | When every stored alert has a valid type, listing all three severities gives the unrestricted result |
| `Services.UnknownLocationHasNoAlerts` | alerts/services.py:13-16 | In a valid store, an id that names no location yields no alerts from either location filter |
| `Services.SeverityIgnoresLocations` | alerts/services.py:31 | The severity filter's result does not depend on the location table or the join table |
| `Services.NoSeveritiesNoAlerts` | alerts/services.py:31 | `filter_alerts_by_severity([])` returns nothing |
| `Services.ActiveIsLocationListRestricted` | alerts/services.py:41-44 | The active alerts of a location are its unrestricted alerts with the inactive ones dropped, in the same order |
| `Services.PolicyExample` | alerts/services.py:18 | With one `info` alert at a location, `severities=[]` lists it while `["error"]` lists nothing |
| `Services.WarningAndErrorScenario` | alerts/services.py:13-19 | In a valid store, a location whose alerts are one warning alert and possibly one error alert returns exactly the warning alert when asked for warnings by value |

## Left out

- Text.Strip: its contract states what the core tests (emptiness, and non-whitespace ends), not that the result is the slice of the input between the stripped ends. That follows from the contracts of `Text.LStrip` and `Text.RStrip`, which it composes.
- `fetch_external_alerts` (alerts/services.py:47-56) and the job `fetch_alerts_task` (alerts/tasks.py): an HTTP GET plus a task wrapper that re-raises. This is network I/O and a foreign job runner.
- Views, URL routing, authentication redirects, permissions and pagination at 10 per page (alerts/views.py, alerts/urls.py): framework behaviour.
- JSON serialisation (alerts/serializers.py): done entirely by the serialisation library.
- ORM persistence: saving, automatic `created_at` assignment, `on_delete` cascades and `SET_NULL` on `Profile.location`, and the automatic creation of a profile for each user. Name uniqueness and valid join rows are kept only as the store invariant `Valid`. No operation inserts or deletes records.
- Field-level checks that Django's `full_clean` runs around `clean`: `max_length`, `max_digits=9` / `decimal_places=6`, `blank=False`, the `choices` check on `alert_type` (alerts/models.py:14), and `validate_unique` on `Location.name` (alerts/models.py:34). Only the custom `clean` methods are modelled. A title that `blank=False` already refuses is refused by `CleanAlert` as well, `CleanAlert` accepts exactly the three `choices` keys, and name uniqueness is carried by the store invariant `Valid`.
- Lazy, chainable querysets: a result is a plain sequence, evaluated at once.
- Filtering by an unsaved `Location` value, which has no primary key: `LocRef.Inst` always carries an id.
- Database-specific name collation: location names are ordered by code point.
- Non-finite coordinates: `real` holds only finite decimals. `Decimal('NaN')` is truthy, so the source compares it with the bounds, and Python raises `decimal.InvalidOperation` rather than a validation error. An infinite coordinate is refused as out of range by the source. Neither case exists in the model.
- Seqs.Filter: its contract states which records are kept and how often, not their relative order. The order the filters promise, newest first, is proved separately by `Services.FilterNewestFirst`.
