# EPSG dialect adapter, system user and bus statistics queries

A Dafny model of three pieces of logic from the `haze` demo applications:

- **`MyAnsiDialectEpsgFactory`** (module `EpsgFactory`, with `EpsgTable`, `EpsgRewrite` and
  `JavaText`). The EPSG factory for PostgreSQL keeps an ordered map from the bracketed
  MS-Access table and column names (`[Coordinate Axis]`, `[ORDER]`, ...) to ANSI names
  (`epsg_coordinateaxis`, `coord_axis_order`, ...).
  - The constructor fills the map from a fixed array of 20 pairs.
  - `setSchema` validates and normalises a schema name, prepends it to every value except the
    `coord_axis_order` column, and records it as the prefix.
  - `adaptSQL` rewrites a statement. For each entry in insertion order, it replaces every
    occurrence of the key left to right and resumes after the inserted value.
  - The model is the class `AnsiDialectFactory`:
    - the `LinkedHashMap` is a field `entries: seq<Entry>` in insertion order;
    - `put` is `Put`: it replaces the value in place when the key is present and appends otherwise;
    - the StringBuilder rewrite is the loop method `ReplaceEvery`, proved equal to the
      specification function `ReplaceAll`.
- **`User`** (module `SystemUser`). The system user entity: its field defaults, the role set
  that `addRole`/`removeRole` update in place, the permissions collected from the roles of the
  user and of the user's group, the comma-terminated list of role codes, and the
  super-administrator test.
  - `HashSet` iteration is a nondeterministic choice of the next element. The results are
    specified for every iteration order.
- **`VsailStatService`** (module `VsailStat`). The building of the report queries:
  - the date-range parameters (`processDate`, `processParams`);
  - the group-id list and the `group by` suffix added by `queryBusStat`;
  - the named-parameter binding of `setParams`;
  - the SQL text of the last-sensor-readings query (`getSensor`).
  - "Today", the conversion of a `java.util.Date` to year, month and day, and the ids of a
    group's enabled children are parameters.
  - `null` is `None` throughout. An exception is the `Err` case of a `Result`.

Three facts about the code that the model keeps:

- `setParams` throws only for a null or blank parameter name; a name missing from the map is bound to null (`VsailStatService.java:198-207`).
- The constructor only fills the map; the schema is prepended to the values by the separate `setSchema` (`MyAnsiDialectEpsgFactory.java:121-150`).
- The group ids are the root id and the ids that `getChildList(ENABLE)` returns, in that order (`VsailStatService.java:148-152`).

## Model

| member | source | states |
|---|---|---|
| EpsgTable.AnsiRows | haze-spatial/src/main/java/com/haze/spatial/epsg/postgresql/MyAnsiDialectEpsgFactory.java:15-36 | The ANSI array holds 40 names. Each of its 20 keys is a bracketed name, distinct from every earlier key. Each value is free of brackets and starts with `epsg_` or `coord_`. |
| EpsgTable.ValueNotInKey | haze-spatial/src/main/java/com/haze/spatial/epsg/postgresql/MyAnsiDialectEpsgFactory.java:15-36 | No ANSI value of the table occurs inside any of its Access keys. |
| EpsgFactory.Put | haze-spatial/src/main/java/com/haze/spatial/epsg/postgresql/MyAnsiDialectEpsgFactory.java:84 | `LinkedHashMap.put` keeps every existing key in place. It changes only the value under the key. A new key goes last. Distinct keys stay distinct. |
| EpsgFactory.LoadStep | haze-spatial/src/main/java/com/haze/spatial/epsg/postgresql/MyAnsiDialectEpsgFactory.java:83-85 | Helper for the constructor's loop invariant: `Load` unfolded at an even prefix, so one pass puts `ANSI[i] -> ANSI[i+1]` after the entries loaded so far. |
| EpsgFactory.LoadIsPairs | haze-spatial/src/main/java/com/haze/spatial/epsg/postgresql/MyAnsiDialectEpsgFactory.java:83-85 | Putting the pairs of an array with distinct keys gives exactly the pairs `a[2k] -> a[2k+1]`, in array order. |
| EpsgFactory.DefaultMap | haze-spatial/src/main/java/com/haze/spatial/epsg/postgresql/MyAnsiDialectEpsgFactory.java:15-36 | The map the constructor builds is the 20 ANSI pairs in array order. Keys are bracketed, values bracket-free, and no value occurs inside any key. |
| EpsgFactory.AnsiDialectFactory.constructor | haze-spatial/src/main/java/com/haze/spatial/epsg/postgresql/MyAnsiDialectEpsgFactory.java:67-85 | A new factory maps `ANSI[2k]` to `ANSI[2k+1]` for k < 20, in array order, with distinct non-empty keys and prefix `epsg_`. |
| EpsgFactory.NormalizeSchema | haze-spatial/src/main/java/com/haze/spatial/epsg/postgresql/MyAnsiDialectEpsgFactory.java:122-132 | It is an error, carrying the trimmed schema, exactly when the trimmed schema is empty or a lone `.` or `_`. Otherwise the result is the trimmed schema when that ends with `.` or `_`, and the trimmed schema plus `.` when it does not. |
| EpsgFactory.NormalizeIdempotent | haze-spatial/src/main/java/com/haze/spatial/epsg/postgresql/MyAnsiDialectEpsgFactory.java:122-132 | Normalising an accepted, normalised schema again returns it unchanged. |
| EpsgFactory.WithSchemaEntries | haze-spatial/src/main/java/com/haze/spatial/epsg/postgresql/MyAnsiDialectEpsgFactory.java:133-148 | After the schema is applied the entries keep their number and order. The `coord_axis_order` value (ignoring case) is unchanged, and every other value becomes schema + old value under the same key. |
| EpsgFactory.SchemaStacks | haze-spatial/src/main/java/com/haze/spatial/epsg/postgresql/MyAnsiDialectEpsgFactory.java:141-149 | Two calls stack their schemas: a value becomes `s2 + s1 + original`, and is not substituted. |
| EpsgFactory.SchemaKeepsNamesSafe | haze-spatial/src/main/java/com/haze/spatial/epsg/postgresql/MyAnsiDialectEpsgFactory.java:133-148 | Prepending a bracket-free schema keeps the table safe: keys stay bracketed, values stay bracket-free, and still no value occurs inside any key. |
| EpsgFactory.AnsiDialectFactory.SetSchema | haze-spatial/src/main/java/com/haze/spatial/epsg/postgresql/MyAnsiDialectEpsgFactory.java:121-150 | A rejected schema is an IllegalArgumentException and changes neither the map nor the prefix. An accepted one rewrites the entries as above and sets the prefix to the normalised schema. The keys stay distinct and non-empty. |
| EpsgFactory.AnsiDialectFactory.PrefixTables | haze-spatial/src/main/java/com/haze/spatial/epsg/postgresql/MyAnsiDialectEpsgFactory.java:133-148 | The loop over the entries leaves the map equal to the old map with the schema applied entry by entry (`WithSchema`). |
| EpsgFactory.SchemaKeepsMap | haze-spatial/src/main/java/com/haze/spatial/epsg/postgresql/MyAnsiDialectEpsgFactory.java:133-148 | Applying the schema keeps the number and the keys of the entries, so distinct non-empty keys stay distinct and non-empty. |
| EpsgRewrite.ReplaceEvery | haze-spatial/src/main/java/com/haze/spatial/epsg/postgresql/MyAnsiDialectEpsgFactory.java:169-173 | The indexOf/replace loop computes the left-to-right, non-overlapping replace-all of the key by the value. |
| EpsgRewrite.ReplacesFirst | haze-spatial/src/main/java/com/haze/spatial/epsg/postgresql/MyAnsiDialectEpsgFactory.java:169-173 | The first occurrence from the scan position is replaced. Scanning resumes in the original text right after the key, so the inserted value is never re-scanned. |
| EpsgRewrite.KeepsWhenAbsent | haze-spatial/src/main/java/com/haze/spatial/epsg/postgresql/MyAnsiDialectEpsgFactory.java:169-173 | With no occurrence of the key from the scan position on, the rest of the text is copied unchanged. |
| EpsgRewrite.AdaptAllUnchanged | haze-spatial/src/main/java/com/haze/spatial/epsg/postgresql/MyAnsiDialectEpsgFactory.java:160-176 | A statement containing no key of the map is returned unchanged. |
| EpsgRewrite.LeavesNameOut | haze-spatial/src/main/java/com/haze/spatial/epsg/postgresql/MyAnsiDialectEpsgFactory.java:169-173 | Suppose the name is bracketed, and is either the key being replaced or absent from the text. Replacing the key with a bracket-free value that does not occur inside the name then leaves no occurrence of the name. |
| EpsgRewrite.AdaptKeepsNameOut | haze-spatial/src/main/java/com/haze/spatial/epsg/postgresql/MyAnsiDialectEpsgFactory.java:162-174 | Suppose the name is bracketed and absent from the statement, every key is non-empty, and every value is bracket-free and does not occur inside the name. Then the name stays absent through every entry's replacement. |
| EpsgRewrite.AdaptRemovesAllKeys | haze-spatial/src/main/java/com/haze/spatial/epsg/postgresql/MyAnsiDialectEpsgFactory.java:162-174 | Suppose keys are non-empty and bracketed, values bracket-free, and no value occurs inside any key. Then no key occurs in the adapted statement. |
| EpsgFactory.DefaultMapRemovesNames | haze-spatial/src/main/java/com/haze/spatial/epsg/postgresql/MyAnsiDialectEpsgFactory.java:15-36 | With the default map, `adaptSQL` leaves no Access name in any statement. |
| EpsgFactory.AnsiDialectFactory.AdaptSql | haze-spatial/src/main/java/com/haze/spatial/epsg/postgresql/MyAnsiDialectEpsgFactory.java:160-176 | It applies each entry's replace-all in map order. A statement with no key is returned unchanged. When keys are bracketed, values bracket-free and no value occurs inside any key, the result contains no key. |
| JavaText.IndexOf | haze-spatial/src/main/java/com/haze/spatial/epsg/postgresql/MyAnsiDialectEpsgFactory.java:170 | `indexOf(pat, from)` is the first occurrence at or after `from`, or -1 when there is none. |
| JavaText.Trim | haze-spatial/src/main/java/com/haze/spatial/epsg/postgresql/MyAnsiDialectEpsgFactory.java:122 | `trim` removes the characters up to U+0020 at both ends and nothing else. |
| JavaText.TrimKeepsUntrimmed | haze-spatial/src/main/java/com/haze/spatial/epsg/postgresql/MyAnsiDialectEpsgFactory.java:122 | A string with no such character at either end is its own trim. |
| JavaText.EqualsIgnoreCase | haze-spatial/src/main/java/com/haze/spatial/epsg/postgresql/MyAnsiDialectEpsgFactory.java:144 | Equal strings match; matching strings have the same length; between strings without upper-case ASCII letters it is plain equality. |
| JavaText.Decimal | haze-webapp-vsail/src/main/java/com/haze/vsail/stat/service/VsailStatService.java:246 | The decimal text of `i` in string concatenation: digits only, no leading zero, a single digit exactly below ten, and its digits denote `i`. |
| JavaText.HasText | haze-webapp-vsail/src/main/java/com/haze/vsail/stat/service/VsailStatService.java:157 | "Not blank" / "has text" holds exactly for a non-null string with a non-whitespace character. |
| SystemUser.User.constructor | haze-system/src/main/java/com/haze/system/entity/User.java:49-86 | A new user has sex M, status ENABLE, an empty role set, and no group or login name. |
| SystemUser.User.IsSuperAdmin | haze-system/src/main/java/com/haze/system/entity/User.java:281-283 | `ADMIN.equals(loginName)`: false for a null login name, and otherwise true exactly when the name matches `admin` character by character, case included. |
| SystemUser.User.SetLoginName | haze-system/src/main/java/com/haze/system/entity/User.java:132-134 | Sets only the login name. The user is then super administrator exactly when the name is `admin`. |
| SystemUser.User.SetRoles | haze-system/src/main/java/com/haze/system/entity/User.java:185-187 | Replaces only the role set, which may be null. |
| SystemUser.User.SetGroup | haze-system/src/main/java/com/haze/system/entity/User.java:211-213 | Replaces only the group, which may be null. |
| SystemUser.User.AddRole | haze-system/src/main/java/com/haze/system/entity/User.java:221-224 | The role set becomes old ∪ {role} and is returned. Adding a role already held changes nothing, so adding twice is adding once. |
| SystemUser.User.RemoveRole | haze-system/src/main/java/com/haze/system/entity/User.java:232-235 | The role set becomes old \ {role} and is returned. Removing a role not held changes nothing. |
| SystemUser.RemoveUndoesAdd | haze-system/src/main/java/com/haze/system/entity/User.java:221-235 | addRole then removeRole of a role not held before restores the original set. |
| SystemUser.PermissionsOfAdd | haze-system/src/main/java/com/haze/system/entity/User.java:245-248 | One more role adds exactly its own permissions to what a role set grants. |
| SystemUser.AddAllPermissions | haze-system/src/main/java/com/haze/system/entity/User.java:245-254 | One `addAll` loop over a role set, in any iteration order, adds exactly the union of the roles' permissions. |
| SystemUser.User.AllPermissions | haze-system/src/main/java/com/haze/system/entity/User.java:243-257 | The union of the permissions of the user's roles and, with a group, of the group's roles. It is empty with no roles and no group. |
| SystemUser.JoinedLength | haze-system/src/main/java/com/haze/system/entity/User.java:265-273 | The joined role list is as long as the codes plus one comma each. |
| SystemUser.CodesLengthPermutation | haze-system/src/main/java/com/haze/system/entity/User.java:265-273 | That length does not depend on the order in which the roles are listed. |
| SystemUser.EnumerationsAgree | haze-system/src/main/java/com/haze/system/entity/User.java:268 | Two iteration orders of one role set list the same roles, once each. |
| SystemUser.User.RoleNames | haze-system/src/main/java/com/haze/system/entity/User.java:265-273 | Empty for a null role set; otherwise `code + ","` for each role in some iteration order of the set. Its length is the sum of the code lengths plus one per role, for every order. |
| VsailStat.ProcessDate | haze-webapp-vsail/src/main/java/com/haze/vsail/stat/service/VsailStatService.java:173-191 | Exactly the six keys startYear ... endDay. They hold the components of the start date (1970-01-01 when null) and of the end date (today when null). |
| VsailStat.ProcessParams | haze-webapp-vsail/src/main/java/com/haze/vsail/stat/service/VsailStatService.java:221-235 | Exactly the three keys year_between, month_between and day_between, each a [start, end] pair, with the same defaults. |
| VsailStat.ParamsPairDateComponents | haze-webapp-vsail/src/main/java/com/haze/vsail/stat/service/VsailStatService.java:173-235 | Each processParams pair is the start and end component that processDate lists for the same dates. |
| VsailStat.CollectGroupIds | haze-webapp-vsail/src/main/java/com/haze/vsail/stat/service/VsailStatService.java:148-152 | The group ids are the root id followed by the child ids in order. |
| VsailStat.QueryBusStat | haze-webapp-vsail/src/main/java/com/haze/vsail/stat/service/VsailStatService.java:140-161 | With a root group: the clause ` and group_Id in (:groupIds)` is appended, and `groupIds` is bound to the root and its children. Without one, neither the clause nor the key is added. Then the group-by suffix follows. |
| VsailStat.GroupBySuffix | haze-webapp-vsail/src/main/java/com/haze/vsail/stat/service/VsailStatService.java:156-161 | The suffix starts with ` group by `, followed directly by `groupBy + ","` when groupBy is not blank. |
| VsailStat.GroupBySuffixColumns | haze-webapp-vsail/src/main/java/com/haze/vsail/stat/service/VsailStatService.java:156-161 | The suffix starts with ` group by ` and ends with the date columns. It holds `groupBy + ","` when groupBy is not blank. A blank or null groupBy leaves only the date columns. |
| VsailStat.ReportSql | haze-webapp-vsail/src/main/java/com/haze/vsail/stat/service/VsailStatService.java:93-137 | Every report's statement starts with `select ` and ends with the date-range condition on the six date parameters. |
| VsailStat.ReportGroupBy | haze-webapp-vsail/src/main/java/com/haze/vsail/stat/service/VsailStatService.java:93-137 | Only getFireCount passes a null group-by column; every other report groups by `model_name` or `group_name`, a column with text. |
| VsailStat.ReportSelectsGroupedColumn | haze-webapp-vsail/src/main/java/com/haze/vsail/stat/service/VsailStatService.java:93-131 | Each grouped report selects first the very column it groups by. |
| VsailStat.ReportQuery | haze-webapp-vsail/src/main/java/com/haze/vsail/stat/service/VsailStatService.java:93-161 | A report query starts with the report's select statement and ends with its group-by suffix; getFireCount's has no extra column. Its parameters are the six processDate values, plus groupIds exactly when a root group is given. |
| VsailStat.Lookup | haze-webapp-vsail/src/main/java/com/haze/vsail/stat/service/VsailStatService.java:202 | `queryParams.get(name)` is null exactly when the map lacks the name. |
| VsailStat.SetParams | haze-webapp-vsail/src/main/java/com/haze/vsail/stat/service/VsailStatService.java:198-207 | An IllegalArgumentException exactly when some parameter name is null or blank. Otherwise every parameter, in order, is bound to the map's value or to null. |
| VsailStat.ColumnsHoldEveryField | haze-webapp-vsail/src/main/java/com/haze/vsail/stat/service/VsailStatService.java:246 | A sensor's column list holds the column of each of its readings. |
| VsailStat.BlocksHoldEverySensor | haze-webapp-vsail/src/main/java/com/haze/vsail/stat/service/VsailStatService.java:245-247 | The columns of sensors 1 to n hold the block of every sensor from 1 to n. |
| VsailStat.AppendSensorColumns | haze-webapp-vsail/src/main/java/com/haze/vsail/stat/service/VsailStatService.java:244-248 | The loop appends one block per sensor from 1 to the count, in order, between head and tail. |
| VsailStat.SensorQuery | haze-webapp-vsail/src/main/java/com/haze/vsail/stat/service/VsailStatService.java:243-252 | The query is the head, the blocks of sensors 1 to 6 in order, and the tail. Its one parameter `vin` is bound. |
| VsailStat.SensorQueryHoldsEveryColumn | haze-webapp-vsail/src/main/java/com/haze/vsail/stat/service/VsailStatService.java:244-248 | The query selects `sensores[i]->>'f' as f<i>` for every reading f (sn, temp, concen, fire, error, state) and every i from 1 to 6. |

## Left out

- The GeoTools superclass `AbstractEpsgFactory`: the `super(...)` calls, connections, data sources and everything inherited. The two other constructors (`MyAnsiDialectEpsgFactory.java:94-112`) differ from the modelled one only in that call.
- The Javadoc table of `MyAnsiDialectEpsgFactory.java:38-63` disagrees with the array (it names `[CA.ORDER]` and omits `[Version History]`); the model follows the array at lines 15-36.
- The `prefix` field is written by `setSchema` but read nowhere: the code that substituted it is commented out (lines 136-143). The model records the field and proves that schemas stack.
- EpsgRewrite.ReplaceEvery, EpsgFactory.AnsiDialectFactory.AdaptSql: require non-empty keys (through `Valid`). With an empty key `indexOf("", start)` returns `start` (`MyAnsiDialectEpsgFactory.java:169-173`), the loop never advances, and `adaptSQL` never returns; the model does not represent that non-termination. The map is filled only from the ANSI array, whose keys are non-empty.
- The `map` field is `protected`, and subclasses may change it in their constructors (`MyAnsiDialectEpsgFactory.java:65-67`): changes made to it directly, outside `put` and `setSchema`, are not modelled.
- EpsgFactory.AnsiDialectFactory.SetSchema: `setSchema(null)` is a NullPointerException at `schema.trim()` (line 122); the model's schema is never null.
- JavaText.EqualsIgnoreCase: folds ASCII letters only; Java's full Unicode case folding is not modelled.
- JavaText.HasText, JavaText.IsWhitespace: `HazeStringUtils.isNotBlank` (`VsailStatService.java:157`) is not part of this model and is taken to be the usual "has text" test; whitespace covers the ASCII whitespace of `Character.isWhitespace`; the Unicode space separators are not modelled.
- Database I/O: `em.createNativeQuery`, `getResultList`, `groupService.findById`, the DAO paging and `findAll` methods (`VsailStatService.java:59-91, 209-219`), `HazeSpecification`, `getTestData`, and the meaning of the PostgreSQL JSON and array operators in the SQL text.
- VsailStat.QueryBusStat: when `findById` finds no group for the root id it returns null, and `group.getChildList` is then a NullPointerException (`VsailStatService.java:150`); the model takes the children's ids as given. The native query is returned rather than created, and its binding is `SetParams`, applied to the names the database driver would report for it.
- `LocalDate.now()` and `HazeDateUtils.toLocalDate` (time-zone dependent): "today" and the converted dates are inputs.
- `Group.getChildList(ENABLE)`, `Group.getRoles`, `Role.getCode` and `Role.getAllPermissons` are not part of this model: their results are fields or parameters (`childIds`, `Group.roles`, `Role.code`, `Role.permissions`).
- SystemUser.User.AddRole and RemoveRole: require a non-null role set, since the source dereferences it without a check (a null set is a NullPointerException there).
- SystemUser.User.AllPermissions: requires a non-null role set for the same reason (the source iterates `getRoles()` directly).
- The identity of the returned role set: `addRole`/`removeRole` return the very `HashSet` they update, so a caller sees later changes through it; the model returns its value.
- `HashSet` iteration order and `Role.equals`/`hashCode`: roles are compared structurally and the iteration order is an arbitrary choice.
- `User.toString`, the other getters and setters, the JPA and Jackson annotations and column constraints, and `UserController`.
- Integer widths: `Long` group ids and `int` date components are unbounded integers; no arithmetic is done on them.
