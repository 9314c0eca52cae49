# Wardrobify core in Dafny

Wardrobify is a small web application: users sign up and log in with a
session cookie, register IoT sensors and clothing items, and watch live
temperature and pressure readings on a dashboard. Devices publish readings
over MQTT; a bridge forwards them to the server's ingest endpoint; the
server stores them in MySQL and relays the newest reading of each
subscribed sensor to the dashboard over a WebSocket, where each sensor has
a chart of its last 20 points.

This project models that core as pure functions over an immutable store
and proves what the code promises about it.

| module | file | models |
|---|---|---|
| `Wrappers` | wrappers.dfy | `Option` and `Result` |
| `Text` | text.dfy | `split`, `join`, `startswith`/`endswith`, decimal rendering and parsing |
| `Clock` | clock.dfy | seconds since the epoch, the 24-hour session window, `"%Y-%m-%d %H:%M:%S"` |
| `Store` | store.dfy | the five tables and every CRUD function of `app/database.py` |
| `Retry` | retry.dfy | the bounded retry loop of `get_db_connection` |
| `Http` | http.dfy | status codes, responses and the session cookie |
| `Guard` | guard.dfy | the `auth_required` decorator |
| `Api` | api.dfy | the guarded JSON routes and pages, dispatched through the guard |
| `Auth` | auth.dfy | login, signup, logout and the three public pages |
| `Feed` | feed.dfy | `POST /api/data` and the WebSocket snapshot |
| `Bridge` | bridge.dfy | the MQTT bridge's `on_message` |
| `Dashboard` | dashboard.dfy | `updateChartData` and `ws.onmessage` |
| `EndToEnd` | endtoend.dfy | one reading's path from device to chart |

Modelling conventions:

- **Store.** A table with an auto-increment key is a map from id to row,
  plus the next id. `sessions` is keyed by its text id. `data` is an
  append-only sequence.
  - Every mutating store function returns the new store with its result.
  - A statement that raises returns `Raised` with the store after it. No
    row is written, but an INSERT into a table with an auto-increment key
    has already drawn the next id. InnoDB does not hand that id out again,
    so the counter moves on.
  - `Store.Valid` states the schema's constraints. Every operation preserves
    it.
- **Time.** The current time is an argument `now`, in seconds.
- **Session ids.** A new session id (`uuid4`) is an argument `freshId`.
- **Text ids and truthiness.**
  - Route path ids are strings. MySQL reads them against the INT key
    column, which `Store.ColumnId` models.
  - Python truthiness of optional text is `Store.Truthy`: `None` and `""`
    are false.
- **Responses.** A route answers with an `Http.Outcome`: a response and the
  store afterwards. An exception that FastAPI turns into a 500 is
  `Http.Crash()`.

## Model

| member | source | states |
|---|---|---|
| Retry.Connect | app/database.py:21-69 | Attempts are numbered from 1 and stop at the first that connects, so every earlier attempt failed. After `max_retries` failures it gives up with every attempt failed. It sleeps between attempts but never after the last. A non-positive `max_retries` makes no attempt. |
| Retry.ScheduleShape | app/database.py:30-64 | A run of n attempts sleeps exactly n - 1 times and ends on attempt n. |
| Retry.DefaultExhaustion | app/database.py:22-23 | With the defaults (12 attempts, 5 s) a dead database is given up on after 55 s of sleeping. |
| Store.Setup | app/database.py:71-172 | The new schema holds the initial users, in order, under ids 1, 2, … and nothing else. The next user id follows them and the store satisfies the schema's constraints. The setup raises exactly when two initial users share a username or an email. |
| Store.CreateSession | app/database.py:175-191 | Inserting succeeds exactly when the session id is new and the user exists. Otherwise it raises a duplicate-key or foreign-key error. A new session's last access is now. |
| Store.ExtendSession | app/database.py:217-249 | Only the named session's last access changes, to now. A missing session or an unreachable database reports False and changes nothing. Reporting True implies the session exists. |
| Store.DeleteSessionById | app/database.py:252-266 | Exactly the named session disappears; the result is always True. |
| Store.DeleteSessionsOfUser | app/database.py:269-283 | Exactly the sessions of the user disappear; the others are kept unchanged. |
| Store.GetUserByUsername | app/database.py:310-323 | It returns a row holding that username and its id. In a valid store it returns None only when no user has the name. |
| Store.CreateUser | app/database.py:326-353 | The insert raises exactly when the username or the email is taken; it then writes no row but uses up the next id. Otherwise the user is added under the next id, which was unused. The constraints hold either way. |
| Store.FailedInsertLeavesGap | app/database.py:344-348 | After a rejected sign-up insert, the next user created gets the id after the skipped one, and no row holds the skipped id. |
| Store.GetSession | app/database.py:194-214 | It returns the row stored under the session id, and None exactly when there is none. |
| Store.GetUserById | app/database.py:286-307 | It returns the row stored under the user id, and None exactly when there is none. |
| Store.GetSensor | app/database.py:435-451 | It returns the row stored under the sensor id, and None exactly when there is none. |
| Store.GetClothes | app/database.py:589-605 | It returns the row stored under the item id, and None exactly when there is none. |
| Store.UpdateUser | app/database.py:356-405 | With no truthy argument it returns True and writes nothing. Otherwise it rewrites exactly the truthy columns of that user's row and nothing else. The result is True exactly when the row changed. A name or email another user holds raises. |
| Store.DeleteUser | app/database.py:408-432 | The user row is removed, and ON DELETE CASCADE removes exactly that user's sessions, sensors and clothes. All other rows and the `data` table are kept. The result is True exactly when the user existed. |
| Store.SensorsOfUser | app/database.py:454-478 | It lists exactly the user's sensors, each with its row, in increasing id order. |
| Store.AddSensor | app/database.py:481-509 | The insert raises a foreign-key error when the owner does not exist; it then writes no row but uses up the next id. Otherwise the sensor is added under the next id and nothing else changes. |
| Store.UpdateSensor | app/database.py:512-558 | A partial update: only the truthy columns change and other rows are untouched. With no truthy argument it reports True. Otherwise it reports True exactly when the row changed. |
| Store.DeleteSensor | app/database.py:561-586 | The sensor is removed; the result is True exactly when it existed. |
| Store.ClothesOfUser | app/database.py:608-632 | It lists exactly the user's clothing items, each with its row, in increasing id order. |
| Store.AddClothes | app/database.py:635-663 | The insert raises a foreign-key error when the owner does not exist; it then writes no row but uses up the next id. Otherwise the item is added under the next id and nothing else changes. |
| Store.UpdateClothes | app/database.py:666-712 | A partial update: only the truthy columns change. With no truthy argument it reports True. Otherwise it reports True exactly when the row changed. |
| Store.DeleteClothes | app/database.py:715-740 | The item is removed; the result is True exactly when it existed. |
| Store.AddData | app/database.py:743-770 | It appends one reading stamped now under the next data id, which is positive in a valid store. |
| Store.NewestFirst | app/database.py:792-801 | `ORDER BY timestamp DESC LIMIT n` returns the min(n, total) newest readings, newest first. Every reading left out is no newer than every reading returned. |
| Store.GetDataBySensorId | app/database.py:773-806 | For a missing sensor, `.get` on None raises. Otherwise it returns the newest readings at the sensor's address (the type is ignored), newest first, up to the limit. |
| Store.Newest | app/database.py:824-833 | The reading returned matches the address and the type and is no older than any other match. It returns None exactly when nothing matches. |
| Store.GetRecentData | app/database.py:809-838 | For an existing sensor it gives the newest reading whose address and type equal the sensor's. It gives None when the sensor is missing or has no such reading. |
| Store.ColumnIdOfText | app/main.py:420-425 | An id passed as `str(id)` reaches the INT column as the same id. |
| Guard.Authenticate | app/decorators.py:66-87 | The guard rejects a missing or empty cookie, an unknown session, a session older than the 24-hour window (strict `<`), and a session whose user is gone. It accepts every other session, as the session's user and with that user's name. |
| Guard.ExpiryBoundary | app/decorators.py:76-79 | A session used exactly 24 h ago is still live; one second older is expired. |
| Guard.Admit | app/decorators.py:47-93 | A handler without a Request gets a 500. A rejected request is redirected to /login and nothing is written. An admitted request runs as the session's user. The only write before it runs is that session's last access, set to now, and an unreachable database skips that write. |
| Guard.RefreshRestartsWindow | app/decorators.py:89-90 | After an admitted request, the same cookie is accepted for the next 24 h. |
| Guard.SyncAuthenticate | app/decorators.py:98-141 | The synchronous wrapper accepts any session whose user exists, with no age check. It records the user id as the text `str(id)`. |
| Guard.SyncDiffersOnlyOnExpiry | app/decorators.py:122-133 | The two wrappers take the same decision except on expired sessions, which only the synchronous one admits. |
| Api.SensorByIdAsWritten | app/main.py:131-139 | The route only reads. An unknown id crashes with a 500. Another user's sensor gets a 401, and the owner gets the row. |
| Api.SensorById | app/main.py:131-139 | It is the same route, but an unknown id gets a 404. |
| Api.MissingSensorAnswers | app/main.py:166-194 | For an unknown id, GET as written answers 500 while PUT and DELETE answer 404, and so does the corrected GET. |
| Api.SensorsOf | app/main.py:141-144 | It lists exactly the caller's sensors. |
| Api.CreateSensor | app/main.py:151-158 | It creates a sensor owned by the caller and answers 201 with its id. Nothing else changes. |
| Api.EditSensor | app/main.py:166-179 | An unknown id gets a 404 and a foreign sensor a 401, both with the store unchanged. The owner's edit changes only the truthy columns of that sensor. It answers 200 exactly when nothing was asked or the row changed, and otherwise 400 "Server Error". |
| Api.RemoveSensor | app/main.py:181-194 | An unknown id gets a 404 and a foreign sensor a 401, both unchanged. The owner's sensor is removed with a 200. |
| Api.ClothesById | app/main.py:247-257 | An unknown id gets a 404 and a foreign item a 401. The owner gets the row. Nothing is written. |
| Api.ClothesOf | app/main.py:259-266 | It lists exactly the caller's items; the 404 branch is never reached. |
| Api.CreateClothes | app/main.py:273-280 | It creates an item owned by the caller and answers 201 with its id. |
| Api.EditClothes | app/main.py:287-300 | An unknown id gets a 404 and a foreign item a 401, both unchanged. The owner's edit changes only the truthy columns. It answers 200 exactly when nothing was asked or the row changed, and 404 otherwise. |
| Api.RemoveClothes | app/main.py:302-315 | An unknown id gets a 404 and a foreign item a 401, both unchanged. The owner's item is removed with a 200. |
| Api.UserByName | app/main.py:197-207 | Asking for another name gets a 401. Asking for one's own name returns one's row, or 404 when none holds that name. |
| Api.CurrentUser | app/main.py:210-220 | It returns the row holding the recorded username, or 404 when the name is empty or unknown. |
| Api.EditUser | app/main.py:230-236 | It partially updates only the caller's row. A taken name or email is a 500 with nothing written. A missing user is a 404. |
| Api.RemoveUser | app/main.py:238-244 | The caller's account and every session, sensor and item it owned are gone. It answers 200 exactly when the account existed. |
| Api.Dashboard | app/main.py:479-491 | With the session row present it serves the dashboard under the recorded name and writes nothing. |
| Api.Wardrobe | app/main.py:493-496 | It serves the wardrobe page under the recorded name and writes nothing. |
| Api.Profile | app/main.py:498-504 | It serves only one's own profile; another name gets a 401. |
| Api.Handle | app/main.py:131-496 | The route table. The read-only routes write nothing and every route keeps the constraints. GET of an unknown sensor id crashes with a 500. PUT or DELETE of an unknown sensor or item, and GET of an unknown item, answer 404 with nothing written. |
| Api.Serve | app/main.py:131-504 | For every guarded route, a rejected request is redirected to /login with the store unchanged. An admitted request runs the route's handler as the session's user, on the store with only that session refreshed. |
| Api.HandleCorrected | app/main.py:131-139 | The route table with GET of an unknown sensor answered 404. It agrees with `Api.Handle` on every other request, and on that one the table as written crashes. |
| Api.ServeCorrected | app/main.py:131-139 | The guarded routes with that correction. The answer equals `Api.Serve`'s except for an admitted GET of an unknown sensor, which gets 404 where `Api.Serve` gets 500. The store afterwards is the same in every case. |
| Api.ForeignRowsUntouched | app/main.py:166-315 | Editing or deleting a sensor or item that is missing or someone else's answers 404 or 401. It writes nothing beyond the guard's session refresh. |
| Api.RemovedUserLocksOut | app/main.py:238-244 | After an account is deleted, no cookie authenticates as that user. |
| Auth.Credentials | app/main.py:410-418 | It finds the user exactly when both fields are non-empty and a row holds that username and password. |
| Auth.Login | app/main.py:405-428 | Bad credentials get a 401 with nothing written. Good ones delete every session of the user and create one new session stamped now. The response is a 302 to /dashboard that sets it as the cookie. Other users' sessions are kept. |
| Auth.LoginSignsIn | app/main.py:420-428 | After login the new cookie authenticates as that user, and it is the user's only session. |
| Auth.SignupAsWritten | app/main.py:437-451 | Empty fields get a 400 with nothing written. A taken name or email makes the insert raise: a 500, never the 409, with no row written and the next user id used up. |
| Auth.DuplicateSignupCrashes | app/main.py:442-444 | A sign-up under a username already in use gets a 500 and writes no row; only the user id counter moves on. |
| Auth.Signup | app/main.py:437-451 | Empty fields get a 400. A taken name or email gets a 409 with no row written (the failed insert still uses up the next user id). Otherwise the user is created with one session, set as the cookie, and redirected to /dashboard. |
| Auth.SignupAgreesWhenFree | app/main.py:437-451 | The corrected and the written sign-up coincide whenever the name and email are free. |
| Auth.SignupSignsIn | app/main.py:446-451 | The cookie a sign-up sets authenticates as the new user. |
| Auth.Logout | app/main.py:454-465 | It deletes the cookie's session when there is one, and always clears the cookie with a 302 to /login. |
| Auth.LogoutSignsOut | app/main.py:454-465 | After logout the old cookie no longer authenticates. |
| Auth.PublicPageAsWritten | app/main.py:469-524 | Any session row under the cookie, however old, gets a 302 to /dashboard; otherwise the page is served. |
| Auth.ExpiredSessionLoops | app/main.py:469-491 | With an expired session, the public page sends the browser to /dashboard and the dashboard's guard sends it back to /login. |
| Auth.ExpiredSessionExample | app/main.py:506-514 | That loop on a store with one user and one session used 24 h and 1 s ago. |
| Auth.PublicPage | app/main.py:469-524 | It sends the visitor to /dashboard exactly when the guard would accept the cookie. |
| Auth.PublicPageAgreesWithGuard | app/main.py:469-491 | Whenever the corrected page redirects, the dashboard serves the page. |
| Feed.Ingest | app/main.py:318-332 | A null key fails validation (422). A key that differs from the configured one gets a 401. In both cases nothing is written, and so nothing is written when no key is configured. A matching key appends exactly one reading stamped now and answers 200. |
| Feed.Relay | app/main.py:109-111 | The relayed reading keeps id, value, type and address. Its timestamp text splits at its one space into exactly the reading's date and its time of day. |
| Feed.Snapshot | app/main.py:105-113 | Its keys are exactly the subscribed ids. An entry is null exactly when the sensor is missing or has no matching reading. Otherwise it is the newest matching reading, relayed. |
| Feed.Tick | app/main.py:117-122 | A message is sent exactly when the subscription is non-empty, and it covers every subscribed id. |
| Clock.FormatSplits | app/main.py:111 | The rendered timestamp splits at its one space into date and time. |
| Bridge.KindOf | mqtt/mqtt.py:40-47 | A topic ending in `/temperature` is a temperature reading and one ending in `/pressure` a pressure reading. Any other topic has no type. |
| Bridge.SuffixesExclusive | mqtt/mqtt.py:40-43 | No topic ends in both suffixes, so the order of the two tests never matters. |
| Bridge.OnMessage | mqtt/mqtt.py:31-62 | Non-UTF-8 bytes raise out of the callback. Non-JSON is logged. A topic outside the base is ignored and an unknown suffix is logged. A non-object JSON payload raises TypeError, a missing `value` raises KeyError and a short topic raises IndexError; each exactly in those cases. A failed float conversion is swallowed. Every other message under the base with a known suffix is posted, and only those are: the value, the type named by the suffix and the fourth topic segment as the address, with the API key. |
| Bridge.DeviceTopic | mqtt/mqtt.py:37-54 | A number on `base/address/temperature` (or `/pressure`) under a three-segment base is posted with that address and type. |
| Dashboard.LabelOf | app/static/dashboard.js:113 | The label is the piece between the first and the second space (or the end), with no space in it. A timestamp without a space gives `undefined`. |
| Dashboard.Update | app/static/dashboard.js:111-130 | A point whose label (the time after the space) equals the last label leaves the chart unchanged. Otherwise the new label and value end the chart, labels and values stay the same length, and the chart never exceeds 20 points. |
| Dashboard.ReplayShowsWindow | app/static/dashboard.js:111-130 | A chart fed from empty shows exactly the newest 20 of the accepted points, oldest first. A point is accepted when its label differs from the last accepted label. |
| Dashboard.SortedKeys | app/static/dashboard.js:15 | The keys of a message are visited in ascending order. |
| Dashboard.OnMessage | app/static/dashboard.js:12-20 | Every non-null entry updates its sensor's chart and nothing else changes. It completes exactly when every non-null entry has a chart. |
| EndToEnd.IngestedIsNewest | app/database.py:809-838 | A reading ingested at now is what `get_recent_data` returns for a sensor with its address and type. |
| EndToEnd.RelayedLabel | app/static/dashboard.js:113 | The dashboard labels a relayed reading with its time of day. |
| EndToEnd.DeviceReadingReachesChart | app/main.py:105-122 | A device's number reaches the ingest endpoint, and the next snapshot reports it stamped now with the device's address. The sensor's chart then ends with the time of day of now. |

## Left out

- **Driver, SQL and network.**
  - The MySQL driver, the SQL text and connection pooling are not modelled.
  - A statement either completes or raises a constraint error. A lost
    connection is modelled only for `extend_session`, the one place that
    swallows it.
  - `int(os.getenv('MYSQL_PORT'))` is evaluated inside the retry loop, but
    its error is not a MySQL `Error`. It is not modelled.
- **Database semantics.**
  - String comparison uses MySQL's case-insensitive collation, but the
    model compares exactly.
  - VARCHAR lengths, and a session id that fits `VARCHAR(36)`, are not
    checked.
- **Time.**
  - Time is whole seconds since the epoch, and there are no time zones.
  - The TIMESTAMP range and `CURRENT_TIMESTAMP` rounding are not modelled.
- **Floats.** FLOAT readings are kept as Dafny `real` and never computed
  with. Python's `float` of a JSON string is given as data (`JString.asFloat`).
- **Passwords** are compared as plain text, as the code stores them.
- **AI and documents.**
  - The AI recommendation endpoint (`/api/ai-wardrobe-recommendation`) is
    an external call with no effect on the store.
  - `serve_content` and the HTML files are only named (`Http.Document`).
- **WebSocket and JavaScript.**
  - The 3-second pacing of the relay loop is not modelled, nor the
    closing of the socket on an exception.
  - `loadSensors` and the other JavaScript files are not modelled. The
    subscription `loadSensors` sends after each chart is created comes
    from it, and the server reads only the first message.
  - JavaScript's `for … in` visits keys in ascending order only for
    non-negative integer keys. The model always sorts, which matches the
    positive auto-increment ids.
- **Firmware.** The firmware in `IOT/src/main.cpp` is not part of this
  model, beyond the topic shape `base/address/temperature` used by
  `Bridge.DeviceTopic`.
- Retry.Connect: the retry comment promises one minute of retrying. The
  code sleeps 11 × 5 = 55 seconds, as `Retry.DefaultExhaustion` states.
  The model follows the code.
- Guard.SyncAuthenticate: the synchronous wrapper is an `async def` that
  calls `run_until_complete` on the loop already running. It would raise
  before any handler runs.
  - Only its decision is modelled.
  - No route in `app/main.py` is synchronous, so `Api.Serve` uses the
    asynchronous wrapper only.
- Store.ColumnId: MySQL compares a text id with an INT column as two
  double-precision numbers. The model reads only an optional '-' and the
  leading digits, so it differs from MySQL on other text:
  - MySQL skips leading spaces and accepts '+'; the model reads those as 0.
  - MySQL keeps a decimal part, so '5.7' matches no row; the model reads 5.
  - MySQL reads an exponent, so '1e1' is 10; the model reads 1.
  - Ids the application renders itself with `str(id)` are read exactly
    (`Store.ColumnIdOfText`).
- Store.Setup: a clash among the initial users leaves the tables created
  and empty. The model returns only the error.
- Bridge.OnMessage: it follows the code, not the stated intent that the
  bridge never crashes.
  - A KeyError, IndexError, TypeError or UnicodeDecodeError leaves the
    callback (`Raised`).
  - The HTTP post's own failure is not modelled.

## Findings

| source | as written | input that shows it | evidently intended | confidence | as-written member | corrected member |
|---|---|---|---|---|---|---|
| app/main.py:469-524 | `/`, `/login` and `/signup` treat any session row as signed in, with no age check | a session last used 86401 s ago: `/login` redirects to `/dashboard`, whose guard redirects back to `/login` | redirect only when the guard would accept the session | high (not executed) | Auth.PublicPageAsWritten (shown by Auth.ExpiredSessionLoops, Auth.ExpiredSessionExample) | Auth.PublicPage (Auth.PublicPageAgreesWithGuard) |
| app/main.py:437-444 | `create_user` raises IntegrityError on a taken username or email, so the 409 branch is never reached | sign up twice with the same username: the second gets a 500 | 409 "Unable to create user" with nothing written | high (not executed) | Auth.SignupAsWritten (Auth.DuplicateSignupCrashes) | Auth.Signup (Auth.SignupAgreesWhenFree, Auth.SignupSignsIn) |
| app/main.py:131-139 | `get_sensor_by_id` returns None for an unknown id and the route calls `.get` on it | GET /api/sensors/999 with no sensor 999: a 500 | 404, as PUT and DELETE on the same path answer | high (not executed) | Api.SensorByIdAsWritten (Api.MissingSensorAnswers) | Api.SensorById (used by Api.HandleCorrected and Api.ServeCorrected) |
