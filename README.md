# interest-voyage-backend: HTTP handler decisions

A Dafny model of the request handling in `functions/index.js`, the Firebase Cloud
Functions back end that lets clients look up UK rail stations, query timetables
through the Realtime Trains API, and subscribe to a train.

The model covers:

- **Train-ID format** (`TrainId`). The check `trainUID.match(/^[A-Z]\d{5}$/)` is modelled the
  way JavaScript runs it. `String.prototype.match` with a non-global pattern tries each
  start index in turn. Without the `m` flag, `^` holds only at index 0 and `$` only at the
  end of the input. `\d` is the ASCII class `0-9`. `MatchesIffValid` proves that this search
  accepts exactly the strings of length 6 made of one letter `A`-`Z` and then five digits.
- **Firestore `arrayUnion`** (`FieldValue`). It appends each element that is absent and
  keeps the existing array untouched. It is proved to keep the prefix, to append only new
  elements, to preserve "no duplicates", and to be idempotent.
- **`subscribe`** (`SubscribeEndpoint`). There are three guards in a fixed order: method
  `PUT`, then `trainUID` present and non-empty, then `trainUID` well formed. After them comes
  the `arrayUnion` update of the `subscriptions` array. The stored array is the
  `seq<string>` field of class `SubscriptionDocument`. Method `Subscribe` changes it only on
  the success path. The store's answer (`Committed` or `Failed(error)`) is an input, because
  the store is outside the model. An independent reference, "the first failing check of
  `GuardOrder`" (`FirstFailure`), is proved equal to the handler's guard chain.
- **`schedules`** (`SchedulesEndpoint`). There is a `GET` guard. Then
  `BuildLocationListQuery` builds the query record step by step. `station` and `toStation`
  are always set. `time` and `date` are set only when the parameter is truthy, so
  `undefined` and `''` are omitted. The Realtime Trains client is a function parameter from
  query to answer.
- **`stations`** (`StationsEndpoint`). There is a `GET` guard. Then the station list is
  returned unchanged.

Response texts are kept as the source writes them. The 403 text of `schedules` and
`stations` is `"Can't" + method + " this function"`, with no space after `Can't`.

About the code as written:

- It keeps a single array of train IDs; it has no (train, date) composite keys, no
  error counters and no date handling.
- In `schedules`, a missing or empty `date` is left out of the query: a GET without a
  truthy `date` or `time` sends a query holding only `station` and `toStation`
  (`QueryWithoutOptionalFields`).
- Validation failures of `subscribe` answer 500. A wrong method answers 403.

## Model

| member | source | states |
|---|---|---|
| TrainId.Exec | functions/index.js:24 | the regex search returns the first start index at which the pattern matches, and none when no index from 0 to the end matches |
| TrainId.AtomsMatchAtIff | functions/index.js:24 | a run of single-character classes matches at index i iff enough characters remain and each character is in its class |
| TrainId.AnchoredMatchIff | functions/index.js:24 | a pattern anchored by `^` and `$` (no `m` flag) matches iff the input has exactly as many characters as the pattern has atoms and each is in its class |
| TrainId.MatchesIffValid | functions/index.js:24 | `match(/^[A-Z]\d{5}$/)` succeeds iff the ID has length 6, starts with `A`-`Z` and has five digits `0`-`9` after it |
| TrainId.TrainUidExamples | functions/index.js:24 | `G12345` is accepted; lower case, too short, too long, a leading character and a trailing newline are rejected |
| FieldValue.ArrayUnion | functions/index.js:30 | the union keeps the old array as a prefix, contains every added element, and contains nothing else |
| FieldValue.ArrayUnionAppendsOnlyAbsent | functions/index.js:30 | every element arrayUnion appends is absent from everything before it |
| FieldValue.ArrayUnionKeepsNoDuplicates | functions/index.js:30 | an array without duplicates has none after the union |
| FieldValue.ArrayUnionOfPresent | functions/index.js:30 | a union of elements that are all present leaves the array unchanged |
| FieldValue.ArrayUnionIdempotent | functions/index.js:30 | applying the same union twice equals applying it once |
| FieldValue.ArrayUnionSnoc | functions/index.js:30 | a union ending in one more element equals the union with the rest followed by the union with that element, so absent elements are appended in argument order |
| FieldValue.ArrayUnionOne | functions/index.js:30 | a one-element union appends the element exactly when it is absent |
| SubscribeEndpoint.FirstFailure | functions/index.js:17-26 | returns the index of a failing check all of whose predecessors pass, or none when every check passes |
| SubscribeEndpoint.SubscribeGuard | functions/index.js:17-26 | the guard chain admits iff the method is PUT and the ID is present and well formed, and then admits that ID |
| SubscribeEndpoint.GuardIsFirstFailingCheck | functions/index.js:17-26 | the handler answers with the rejection of the first check that fails, in the order method, presence, format; it writes only if all pass |
| SubscribeEndpoint.InvalidTrainUidRejected | functions/index.js:24-26 | a non-empty ID of the wrong format gets 500 "Invalid train ID" and the list is unchanged |
| SubscribeEndpoint.StoreWrittenOnlyWhenAdmitted | functions/index.js:17-33 | the list changes only when all three checks pass, the store commits, and the ID was not yet in the list |
| SubscribeEndpoint.SuccessfulSubscribe | functions/index.js:29-33 | a 200 answer means the store committed a valid ID, the ID is in the list, the old list is a prefix, and no duplicate was added |
| SubscribeEndpoint.StoreFailureAnswered500 | functions/index.js:35-37 | a failed store update gives no 200 and leaves the list unchanged; after passing the guards it gives 500 "Couldn't subscribe: " and the error |
| SubscribeEndpoint.SubscribeTwiceIsSubscribeOnce | functions/index.js:29-33 | subscribing the same ID a second time leaves the list as the first subscription left it |
| SubscribeEndpoint.ResubscribeLeavesListUnchanged | functions/index.js:29-37 | after a committed subscribe, a second subscribe of the same ID leaves the list unchanged whether the store commits or fails |
| SubscribeEndpoint.SubscriptionDocument.constructor | functions/index.js:28 | the document starts with the given subscriptions array |
| SubscribeEndpoint.SubscriptionDocument.Subscribe | functions/index.js:16-38 | the response and new list equal the modelled handler; 403 with the list unchanged for a non-PUT method, 500 for a missing or malformed ID, no 200 on store failure, and on 200 the ID is in the list with the old list kept as a prefix |
| SchedulesEndpoint.BuildLocationListQuery | functions/index.js:44-59 | the query always carries `station := start` and `toStation := end`, and carries `time` and `date` iff their parameter is truthy, with its value |
| SchedulesEndpoint.Schedules | functions/index.js:40-68 | a non-GET method gets 403 and no upstream call; a GET sends the built query and answers 200 with the data or 500 on client failure |
| SchedulesEndpoint.QueryWithoutOptionalFields | functions/index.js:48-59 | without truthy `date` and `time` the query holds only the two stations |
| StationsEndpoint.Stations | functions/index.js:71-76 | the answer is 200 iff the method is GET, and then carries the station list unchanged; any other method gets 403 |

## Left out

- Firebase initialisation, `functions.config()` and the construction of the Firestore and Realtime Trains clients (functions/index.js:1-14): configuration, not behaviour.
- Firestore document addressing (`db.collection('system').doc('subscriptionDocument')`) and transport; only the effect of `arrayUnion` on an abstract array is modelled, and whether the store commits is an input.
- Asynchrony: promise chaining, `.then`/`.catch` ordering and concurrent requests; each handler runs as one synchronous step.
- `rttClient.getLocationList` and its response: a function parameter from query to `Fetched(data)` or `FetchFailed`.
- SchedulesEndpoint.Schedules: the failure response is modelled as status 500 with the text `"Error querying schedules! "`; the extra `error` argument passed to `send` at functions/index.js:66 is not modelled. Under Express 4's legacy two-argument `send`, a non-numeric second argument makes the first one the status code, so the line most likely sets the status to that text, which Node's `writeHead` rejects, and the 500 is then never sent; this depends on the Express version and is not modelled.
- Query parameters that Express parses into arrays or objects (a repeated `trainUID`, for example); parameters are `undefined` or a string, so the `TypeError` that `.match` on a non-string would throw is not modelled.
- `pollSchedules` (functions/index.js:78-91): it only logs, and calls `.then` on a document reference; it has no behaviour to model.
- Console logging and the contents of the imported station list, which is carried as opaque entries.
