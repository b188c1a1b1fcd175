# RealWorld dummy server storage and OpenAPI comparison, in Dafny

This project models two parts of a RealWorld ("Conduit") backend test kit.

**The dummy server's storage layer** (`realworld_dummy_server.py`):

- `normalize_id`, which turns an id argument into its canonical string.
- `InMemoryModel`, a keyed object store with a capacity and least-recently-accessed eviction. Ids come from a counter.
- `InMemoryLinks`, an ordered, capped list of (source, target) pairs.
- `InMemoryStorage`, the five stores that belong to one session.
- `_StorageContainer`, which keeps every session in an indexed min-heap ordered by last access time. It holds:
  - a per-address quota (`MAX_SESSIONS_PER_IP` sessions per IPv4 address or per IPv6 /64 range);
  - a bounded table from login tokens to sessions;
  - `get_storage`, which picks or creates the session behind a request;
  - `find_session_by_credentials` and `bind_jwt_to_session_id`.

**The OpenAPI drift checker** (`compare_openapi.py`). It compares a reference OpenAPI document with the one a server publishes and produces a list of findings (`Difference`), each with a severity of critical, warning or info. It covers:

- path normalisation and `$ref` resolution;
- parameter, response-code and operation comparison;
- detection and stripping of a served path prefix;
- the whole-document comparison `compare_specs`;
- the pass/fail rule of `main`.

## How the model is built

JSON values are a datatype (`Json.Json`). Python dictionaries are association lists that keep insertion order:

- `Json.Lookup` finds the first entry with a key.
- `Json.Put` replaces an entry in place, or appends one.
- A dict comprehension is a fold of `Put`, so a later key replaces an earlier one as it does in Python.

Python's falsy `None` and `""`, for ids, addresses and tokens, are both the empty string. No branch of the source tells them apart.

Code that mutates state is modelled as classes:

- `Stores.ObjectStore`, `Stores.LinkStore`, `Stores.Storage` and `Container.StorageContainer`.
- Each method keeps a `Valid()` invariant and states its new state against the old one, under the conditions listed below and in "## Left out".
- `Container.Consistent` ties the address buckets to the heap. Every bucket entry is live and its stored address falls in that bucket. Every live session with an address is listed. No bucket repeats a session or holds more than the per-address quota.
- `Push`, `Pop`, `UpdatePriority`, `CreateSession` and `GetStorage` keep `Container.Consistent` when every priority is positive (as `time_ns()` priorities are). A touch must also come from the saved address's range or find it stored normalised. Under those conditions they state their new sessions and buckets as `Container.AfterPush`, `Container.AfterPop` and `Container.AfterTouch` of the old ones.
- The heap is a `seq<HeapItem>` (the Python list) with an index map. `SessionHeap` holds the pure heap lemmas the methods use.
- Timestamps (`time_ns()`) and fresh session ids (`uuid.uuid4()`) are parameters of the methods that use them.

The comparison functions are loops in the source, so they are methods with loop invariants. Each is proved equal to a specification function (`...Spec`, or `Flatten` of a sequence of per-item blocks). The promised properties are lemmas about those functions:

- severity classification;
- each missing item is reported with its severity, and each served-only item as information;
- extensions are ignored;
- the verdict's meaning.

Three behaviours of the source are modelled as written:

- **The token-login refresh.** It filters the token order list by a *session id* instead of a token, so nothing is normally removed and a token can be listed twice (`Container.RefreshRepeats`).
- **A stale bucket.** A session saved under a raw, un-normalised address keeps its entry in the old address bucket when it is moved to a new one, which breaks `Container.Consistent` (`Container.StaleBucketBreaks`).
- **`bind_jwt_to_session_id` evicts before it cleans up.** It tests whether the order list is full *before* it removes the token's old bindings, so it can evict the oldest token even when the cleanup would have made room.

## Model

| member | source | states |
|---|---|---|
| Stores.NormalizeId | realworld_dummy_server.py:382-389 | a bool or a non-int/non-str value is refused as the wrong type; a string is accepted exactly when it has at most 64 characters, and is returned unchanged; an accepted id never exceeds 64 characters |
| Stores.NormalizeIdIntAsString | realworld_dummy_server.py:383-384 | an int id is normalised exactly as its decimal string would be |
| Stores.NormalizeIdIntInjective | realworld_dummy_server.py:383-388 | two int ids that normalise to the same accepted id are equal |
| Stores.NextIdIsFresh | realworld_dummy_server.py:407-411 | under the store invariant, the next id the counter issues is not a key of any stored object |
| Stores.AppendKeepsInv | realworld_dummy_server.py:409-426 | adding below capacity keeps the invariant: the order list lists exactly the stored ids, each once, and every key was issued by the counter |
| Stores.EvictKeepsInv | realworld_dummy_server.py:409-424 | adding at capacity evicts the head of the order list and keeps the invariant, with the size unchanged |
| Stores.RemoveKeepsInv | realworld_dummy_server.py:461-463 | deleting an id from the objects and from the order list keeps the invariant |
| Stores.DropFrontKeys | realworld_dummy_server.py:412-424 | after an insertion at capacity, dropping the oldest id leaves the order list duplicate-free, in step with the keys, and the same size as before |
| Stores.NewObjectStore | realworld_dummy_server.py:398-404 | a store is created exactly when the capacity is positive, empty with the counter at 1; otherwise the result is the invalid-capacity error |
| Stores.ObjectStore.constructor | realworld_dummy_server.py:398-402 | an empty valid store with the counter at 1 |
| Stores.ObjectStore.Add | realworld_dummy_server.py:406-435 | refuses when the counter's decimal form exceeds 64 characters; otherwise stores the object under the fresh counter id, writes that id into the object, increments the counter, and appends the id to the order list, or at capacity evicts the least recently accessed object |
| Stores.ObjectStore.Get | realworld_dummy_server.py:437-448 | an invalid id is an error; a stored id returns its object and moves to the end of the order list; an unknown id returns nothing and changes nothing; the objects never change |
| Stores.ObjectStore.Delete | realworld_dummy_server.py:459-481 | an invalid id is an error; a stored id is removed from the objects and the order list and the result is true; otherwise the result is false and nothing changes |
| Stores.LinkStore.constructor | realworld_dummy_server.py:485-487 | an empty link list with the given capacity |
| Stores.LinkStore.Add | realworld_dummy_server.py:489-509 | errors for an invalid source, then an invalid target; a zero capacity changes nothing; an existing pair moves to the end; a full list drops its oldest pair; otherwise the pair is appended |
| Stores.LinkStore.Remove | realworld_dummy_server.py:511-515 | errors for invalid ids; otherwise the pair is removed from the list and every other pair keeps its place |
| Stores.LinkStore.IsLinked | realworld_dummy_server.py:517-519 | errors for invalid ids; otherwise true exactly when the normalised pair is in the list |
| Stores.LinkStore.TargetsForSource | realworld_dummy_server.py:521-522 | an empty list gives no targets without normalising; otherwise an invalid id is an error, and a valid one gives exactly the targets paired with that source |
| Stores.LinkStore.SourcesForTarget | realworld_dummy_server.py:524-525 | an empty list gives no sources; otherwise an invalid id is an error, and a valid one gives exactly the sources paired with that target |
| Stores.LinkStore.DeleteSource | realworld_dummy_server.py:527-528 | removes exactly the pairs whose source is the normalised id, keeping order; an invalid id with a non-empty list is an error |
| Stores.LinkStore.DeleteTarget | realworld_dummy_server.py:530-531 | removes exactly the pairs whose target is the normalised id, keeping order; an invalid id with a non-empty list is an error |
| Stores.Targets | realworld_dummy_server.py:521-522 | a target is listed exactly when its pair with the source is in the list |
| Stores.Sources | realworld_dummy_server.py:524-525 | a source is listed exactly when its pair with the target is in the list |
| Stores.TargetsAppend | realworld_dummy_server.py:521-522 | the targets of a concatenation are those of the first part followed by those of the second |
| Stores.SourcesAppend | realworld_dummy_server.py:524-525 | the sources of a concatenation are those of the first part followed by those of the second |
| Stores.AddedLinkLast | realworld_dummy_server.py:489-509 | a pair appended last puts its target last among its source's targets, and its source last among its target's sources |
| Stores.WithoutSource | realworld_dummy_server.py:527-528 | a pair stays exactly when it was present and its source differs |
| Stores.WithoutTarget | realworld_dummy_server.py:530-531 | a pair stays exactly when it was present and its target differs |
| Stores.WithoutSourceNoDup | realworld_dummy_server.py:527-528 | deleting by source keeps the list free of duplicate pairs |
| Stores.WithoutTargetNoDup | realworld_dummy_server.py:530-531 | deleting by target keeps the list free of duplicate pairs |
| Stores.Storage.constructor | realworld_dummy_server.py:534-542 | five fresh, empty stores with the per-session capacities 60, 20, 20, 100 and 100 |
| Addresses.NormalizeIp | realworld_dummy_server.py:641-648 | a key ending in `/64` and an address without a colon are kept; an address with a colon becomes a key ending in `/64` |
| Addresses.NormalizeIpIdempotent | realworld_dummy_server.py:643-644 | normalising a normalised key changes nothing |
| Addresses.NormalizeIpGroups | realworld_dummy_server.py:645-647 | an IPv6 address of four or more groups becomes its first four groups followed by `::/64` |
| Addresses.NormalizeIpFewGroups | realworld_dummy_server.py:647 | an IPv6 address of two or three groups gets `/64` appended |
| Addresses.SameRangeSameKey | realworld_dummy_server.py:645-647 | two IPv6 addresses with the same first four groups share a quota key |
| Strings.JoinSplit | realworld_dummy_server.py:646-647 | joining the parts of a split gives the string back |
| Strings.SplitJoin | realworld_dummy_server.py:646-647 | splitting a join of separator-free parts gives the parts back |
| SessionHeap.IndexedSize | realworld_dummy_server.py:571-577 | an index map in step with the heap has as many entries as the heap, and heap ids are distinct |
| SessionHeap.SwapKeeps | realworld_dummy_server.py:633-637 | swapping two slots and their index entries keeps the index in step and the set of sessions unchanged, and exchanges the two priorities |
| SessionHeap.SiftUpStep | realworld_dummy_server.py:608-616 | swapping an item smaller than its parent moves the only order violation up to the parent |
| SessionHeap.SiftUpDone | realworld_dummy_server.py:608-616 | sift-up stops with a heap-ordered list |
| SessionHeap.Smallest | realworld_dummy_server.py:618-629 | the chosen slot is the item or one of its children, and no larger than either child |
| SessionHeap.SiftDownStep | realworld_dummy_server.py:618-631 | swapping with the smallest child moves the only order violation down to that child |
| SessionHeap.SiftDownDone | realworld_dummy_server.py:618-631 | sift-down stops with a heap-ordered list |
| SessionHeap.RootIsMin | realworld_dummy_server.py:579-594 | in a heap-ordered list the root has the smallest priority |
| SessionHeap.RootIsMinSession | realworld_dummy_server.py:579-594 | the root is a live session whose priority is no larger than any live session's |
| SessionHeap.PushKeeps | realworld_dummy_server.py:571-577 | appending a fresh item keeps the index in step, adds exactly that session, and leaves the order broken only at the new slot |
| SessionHeap.PopKeeps | realworld_dummy_server.py:579-594 | moving the last item to the root removes exactly the old root's session and leaves the order broken only at the root |
| SessionHeap.PopLastKeeps | realworld_dummy_server.py:579-594 | popping the only item leaves an empty heap and no sessions |
| SessionHeap.UpdateKeeps | realworld_dummy_server.py:596-606 | a new priority changes only that session's priority; a lower one breaks the order only upwards from its slot, a higher one only downwards, an equal one changes nothing |
| SessionHeap.SetIpKeeps | realworld_dummy_server.py:804 | overwriting a heap item's address keeps the heap ordered and changes only that session's address |
| Container.Excess | realworld_dummy_server.py:722-727 | the eviction loop removes nothing from a bucket within the quota, and otherwise exactly enough to bring it to the quota |
| Container.Kept | realworld_dummy_server.py:722-727 | the bucket keeps its newest sessions, at most the quota, and the dropped and kept parts together are the old bucket |
| Container.Detach | realworld_dummy_server.py:661-666 | only the address's bucket changes; the session leaves it; a bucket left empty is deleted; the bucket invariant is kept |
| Container.AttachKeeps | realworld_dummy_server.py:768-772 | moving a session to the end of its bucket keeps the other buckets, keeps the others in the bucket in order, and keeps the bucket invariant |
| Container.AttachPresentMoves | realworld_dummy_server.py:768-772 | moving a session already in its bucket neither adds nor removes anyone |
| Container.DroppedStep | realworld_dummy_server.py:722-727 | each turn of the eviction loop drops one more distinct session from the front of the bucket |
| Container.ForcedPopIsVictim | realworld_dummy_server.py:723-725 | when every live priority is positive, forcing the victim's priority to 0 makes it the session the heap pops |
| Container.KeptDisjoint | realworld_dummy_server.py:722-727 | a bucket without repeats splits into the dropped and the kept sessions, none in both, and its newest entry is kept |
| Container.BucketCover | realworld_dummy_server.py:697-738 | under the invariant, a bucket holds exactly the live sessions whose address falls in it, each once |
| Container.PopConsistent | realworld_dummy_server.py:850-857 | popping a live session and detaching it from its bucket keeps the invariant |
| Container.PushConsistent | realworld_dummy_server.py:845-848 | adding a new session and trimming its bucket keeps the invariant and stores the session; with positive priorities the bucket meets the conditions under which the evicted sessions are exactly the ones dropped |
| Container.Settle | realworld_dummy_server.py:722-727 | after the eviction loop the trimmed bucket and the remaining sessions satisfy the invariant, the newest session stays, and only bucket members are evicted |
| Container.TouchConsistent | realworld_dummy_server.py:740-792 | refreshing a session's priority, from no address, the same range or a new one, keeps the invariant and sets the priority and normalised address; a move meets the eviction conditions |
| Container.TouchSameBucket | realworld_dummy_server.py:756-772 | moving a session to the end of its own bucket keeps the invariant |
| Container.LeaveOldBucket | realworld_dummy_server.py:807-815 | a session saved under a normalised address, or none, leaves every bucket but the new one; the others keep their entries |
| Container.TouchMoved | realworld_dummy_server.py:794-821 | a reattributed session lands in the new bucket; after trimming, the invariant holds and the session itself is kept |
| Container.StaleBucketBreaks | realworld_dummy_server.py:807-815 | a session saved under a raw IPv6 address and touched from another range keeps a stale entry in its old bucket, so the invariant fails |
| Container.RefreshKeeps | realworld_dummy_server.py:874-877 | after a token login the order list still holds only bound tokens and ends with the token |
| Container.RefreshRepeats | realworld_dummy_server.py:874-877 | the filter by session id removes nothing, so the list grows by one and an already listed token is listed twice |
| Container.BindSpec | realworld_dummy_server.py:950-958 | after binding, the token leads to the session and is the newest entry; no other token leads to that session; other bindings survive unless they were the oldest of a full list, and that oldest token leaves both the bindings and the list; every listed token is bound; a list within its bound stays within it |
| Container.UsersMatch | realworld_dummy_server.py:928-929 | true exactly when some user record of the storage has the e-mail and the password hash |
| Container.Unbind | realworld_dummy_server.py:954-955 | the bindings lose exactly the tokens to remove |
| Container.TokenSession | realworld_dummy_server.py:870-873 | a token leads to a session exactly when it is non-empty, bound to a non-empty id, and that id is live |
| Container.StorageContainer.constructor | realworld_dummy_server.py:558-569 | an empty heap, index, address table and token table, which satisfy the bucket invariant |
| Container.StorageContainer.Swap | realworld_dummy_server.py:633-637 | swaps the two slots and their index entries; the live sessions are unchanged |
| Container.StorageContainer.SiftUp | realworld_dummy_server.py:608-616 | restores the heap order from one slot up, with the same sessions |
| Container.StorageContainer.SiftDown | realworld_dummy_server.py:618-631 | restores the heap order from one slot down, with the same sessions |
| Container.StorageContainer.PushItem | realworld_dummy_server.py:571-577 | with a fresh id, adds exactly that session and keeps the heap valid |
| Container.StorageContainer.PopItem | realworld_dummy_server.py:579-594 | an empty heap gives nothing; otherwise returns a live session of least priority and removes exactly it |
| Container.StorageContainer.UpdateItemPriority | realworld_dummy_server.py:596-606 | an unknown id is an error and changes nothing; otherwise only that session's priority changes, and an unchanged priority leaves the heap list and index as they were |
| Container.StorageContainer.OnSessionEvicted | realworld_dummy_server.py:650-695 | no address changes nothing; otherwise the session leaves the bucket of its normalised address, and an empty bucket is deleted |
| Container.StorageContainer.ForceOut | realworld_dummy_server.py:723-725 | a live victim, with all priorities positive, is exactly the session removed; survivors keep their storage |
| Container.StorageContainer.EvictOldest | realworld_dummy_server.py:722-727 | one turn of the eviction loop removes the bucket's oldest session from the heap and from the bucket |
| Container.StorageContainer.TrimBucket | realworld_dummy_server.py:722-727 | the bucket keeps its newest quota of sessions, and the dropped ones are exactly the sessions removed from the heap |
| Container.StorageContainer.OnSessionAdded | realworld_dummy_server.py:697-738 | no address changes nothing; otherwise the session is appended to its normalised bucket, which is then trimmed to the quota, evicting its oldest sessions |
| Container.StorageContainer.RecordAddress | realworld_dummy_server.py:804 | only the session's stored address changes |
| Container.StorageContainer.MoveToBucket | realworld_dummy_server.py:807-821 | the session leaves its saved bucket, which is deleted if emptied, and goes to the end of the new bucket |
| Container.StorageContainer.Reattribute | realworld_dummy_server.py:794-841 | records the new address, moves the session to the new bucket and trims that bucket to the quota, evicting exactly its dropped sessions; the surviving sessions keep their storage |
| Container.StorageContainer.OnSessionTouched | realworld_dummy_server.py:740-792 | no address changes nothing; the same normalised address moves the session to the end of its bucket; a different one reattributes it, and the surviving sessions keep their storage |
| Container.StorageContainer.Push | realworld_dummy_server.py:845-848 | adds the session, then applies the per-address quota, with the sessions removed being exactly those dropped from its bucket; with positive priorities the bucket invariant is kept and the new sessions and buckets are those of `Container.AfterPush` |
| Container.StorageContainer.Pop | realworld_dummy_server.py:850-857 | removes and returns the live session of least priority, and takes it out of its address bucket; the new sessions and buckets are those of `Container.AfterPop`, and the bucket invariant is kept |
| Container.StorageContainer.UpdatePriority | realworld_dummy_server.py:859-862 | an unknown id is an error; otherwise the priority changes and the session is moved to the end of its bucket, or reattributed when its address changed, with the surviving sessions keeping their storage; with positive priorities and a safe touch the invariant is kept, the result is that of `Container.AfterTouch`, and the session holds the new priority and normalised address |
| Container.StorageContainer.SharedStorage | realworld_dummy_server.py:865-868 | with isolation disabled, every request gets the same storage, created on first use |
| Container.StorageContainer.ResolveTarget | realworld_dummy_server.py:869-878 | the target is the cookie's id, else the token's live session (refreshing the order list), else the fresh id |
| Container.StorageContainer.CreateSession | realworld_dummy_server.py:879-903 | a full container whose heap is not empty first evicts a session of least priority; the new session holds a fresh storage, and the heap grows by at most one; every other surviving session keeps its storage; on success the buckets are those of `Container.AfterPush` of the old ones, after `Container.AfterPop` of that least session when full; with positive priorities the invariant is kept, the result is that push, and the new session is stored at priority `now` under the raw client address |
| Container.StorageContainer.GetStorage | realworld_dummy_server.py:864-914 | isolation disabled gives the shared storage and no id; otherwise returns the target session's existing storage, or a fresh one for a new session, with the session count kept within its bound; a touch from the saved range only refreshes the priority; with positive priorities the invariant is kept, an existing session ends as `Container.AfterTouch` with priority `now` and its storage, and a new one is stored at priority `now` with the fresh storage and the raw client address |
| Container.StorageContainer.FindSessionByCredentials | realworld_dummy_server.py:916-939 | isolation disabled finds nothing; otherwise returns the first session in heap order holding a matching user, and nothing only when no session holds one |
| Container.StorageContainer.BindJwtToSession | realworld_dummy_server.py:941-958 | isolation disabled changes nothing; a full but empty order list is the error the source raises; otherwise the token table becomes the bound table described by `Container.BindSpec` |
| Differences.ParseSeverity | compare_openapi.py:31-33 | a parsed severity name is the name of that severity |
| Differences.ToDictFields | compare_openapi.py:49-58 | the dictionary holds the severity, category, path and message, and holds `expected` and `actual` exactly when they are not None |
| Differences.ToDictText | compare_openapi.py:49-54 | the four text fields are stored under their names |
| Differences.ToDictOptional | compare_openapi.py:55-58 | `expected` and `actual` are present exactly when not None |
| Differences.ToDictRoundTrip | compare_openapi.py:36-58 | reading a difference back from its dictionary gives the difference |
| Differences.Count | compare_openapi.py:636-637 | a severity count never exceeds the number of findings |
| Differences.CountZero | compare_openapi.py:636-637 | a count is zero exactly when no finding has that severity |
| Differences.PassedIff | compare_openapi.py:636-642 | the run passes exactly when no finding is critical and, in strict mode, none is a warning |
| Differences.StrictIsStricter | compare_openapi.py:639-642 | passing in strict mode implies passing in normal mode |
| OpenApiPaths.NormalizePathPlaceholder | compare_openapi.py:70-74 | a non-empty `{name}` becomes `{param}` |
| OpenApiPaths.NormalizePathEmptyBraces | compare_openapi.py:70-74 | `{}` is not a placeholder and is kept |
| OpenApiPaths.NormalizePathOther | compare_openapi.py:70-74 | a character that does not open a brace is kept |
| OpenApiPaths.NormalizePathNoClose | compare_openapi.py:70-74 | a path without a closing brace is unchanged |
| OpenApiPaths.NormalizePathIdempotent | compare_openapi.py:70-74 | normalising a normalised path changes nothing |
| OpenApiPaths.StrippedKeyOf | compare_openapi.py:288-289 | a path starting with the prefix loses it, and what remains empty becomes `/` |
| OpenApiPaths.StrippedKeys | compare_openapi.py:281-293 | the stripped paths have distinct keys, which are exactly the stripped forms of the old keys |
| OpenApiPaths.StrippedValue | compare_openapi.py:281-293 | a key's value is that of the last path stripping to it |
| OpenApiPaths.StripPathPrefix | compare_openapi.py:281-293 | the loop computes the comprehension of stripped keys, after trailing slashes are taken off the prefix, and an empty prefix keeps the paths |
| OpenApiPaths.CommonFrom | compare_openapi.py:310-315 | counts the leading segments that are equal and not placeholders, stopping at the first that is not |
| OpenApiPaths.CommonLenUnique | compare_openapi.py:310-315 | that count is the only length with that property |
| OpenApiPaths.CommonLenPrefix | compare_openapi.py:316 | cutting the running prefix to a length cuts the common count to the same length |
| OpenApiPaths.DetectPartsLength | compare_openapi.py:305-316 | the detected prefix is a prefix of the first path's segments, no longer than its common count with any path, and as long as that with one of them |
| OpenApiPaths.DetectPartsShared | compare_openapi.py:305-316 | every path starts with the detected segments, and with two or more paths none of them is a placeholder |
| OpenApiPaths.DetectPathPrefixIsSegmentPrefix | compare_openapi.py:296-320 | a detected prefix, split into segments, is a leading segment list of every path |
| OpenApiPaths.DetectPathPrefix | compare_openapi.py:296-320 | the loop computes the detected prefix of the path keys, in order |
| OpenApiCompare.ResolvedRef | compare_openapi.py:77-88 | a resolved reference is always an object |
| OpenApiCompare.ResolvedRefPath | compare_openapi.py:77-88 | `#/a/b/...` follows the parts through nested objects; a missing step or a non-object target gives `{}` |
| OpenApiCompare.PointerSegments | compare_openapi.py:80-81 | a pointer built from slash-free parts splits back into those parts |
| OpenApiCompare.ResolveRef | compare_openapi.py:77-88 | the loop computes the resolved reference |
| OpenApiCompare.ResolveParams | compare_openapi.py:91-99 | one result per parameter, in order, each resolved |
| OpenApiCompare.GetParameters | compare_openapi.py:91-99 | the loop computes the resolved parameter list |
| OpenApiCompare.ByNameUnique | compare_openapi.py:116-117 | parameters keyed by name hold each name once |
| OpenApiCompare.MissingParamDiffs | compare_openapi.py:120-163 | a reference parameter's findings use parameter categories at the operation's location and follow the severity rules |
| OpenApiCompare.MissingParamBlocks | compare_openapi.py:120-163 | one finding block per reference parameter, in order |
| OpenApiCompare.ExtraParamDiffs | compare_openapi.py:166-176 | a served-only parameter gives only info `extra_parameter` findings |
| OpenApiCompare.ExtraParamBlocks | compare_openapi.py:166-176 | one finding block per served parameter, in order |
| OpenApiCompare.ParametersClassified | compare_openapi.py:102-178 | every parameter finding has a parameter category, the operation's location, and a severity its category allows |
| OpenApiCompare.MissingParameterReported | compare_openapi.py:120-134 | a reference parameter missing from the served one is reported, critical exactly when it is required or a path parameter |
| OpenApiCompare.ParameterLocationReported | compare_openapi.py:137-148 | a parameter both have in different locations is reported as a warning with both locations |
| OpenApiCompare.ParameterOptionalReported | compare_openapi.py:149-162 | a required reference query parameter that the served one makes optional is reported as a warning |
| OpenApiCompare.ExtraParameterReported | compare_openapi.py:165-176 | a served parameter the reference lacks is reported as information |
| OpenApiCompare.CriticalParameterMissing | compare_openapi.py:120-134 | every critical parameter finding is a missing parameter that the reference has, the served document lacks, and that is required |
| OpenApiCompare.CriticalParameterOf | compare_openapi.py:120-125 | one reference parameter's critical finding is its own, missing and required |
| OpenApiCompare.CompareParameters | compare_openapi.py:102-178 | computes the parameter findings |
| OpenApiCompare.ReportMissingParams | compare_openapi.py:120-163 | the loop over reference parameters concatenates their blocks |
| OpenApiCompare.CheckParameter | compare_openapi.py:120-163 | one reference parameter's findings |
| OpenApiCompare.ReportExtraParams | compare_openapi.py:165-176 | the loop over served parameters concatenates their blocks |
| OpenApiCompare.MissingCodeDiffs | compare_openapi.py:188-199 | a missing code is reported under `missing_response_code` at the operation's location, following the severity rules |
| OpenApiCompare.MissingCodeBlocks | compare_openapi.py:188-199 | one block per reference code, in order |
| OpenApiCompare.ExtraCodeDiffs | compare_openapi.py:201-212 | a served-only code gives only info `extra_response_code` findings |
| OpenApiCompare.ExtraCodeBlocks | compare_openapi.py:201-212 | one block per served code, in order |
| OpenApiCompare.ResponsesClassified | compare_openapi.py:181-214 | every response finding has a response category, the operation's location and an allowed severity |
| OpenApiCompare.MissingCodeReported | compare_openapi.py:188-199 | a reference code the served operation lacks is reported, critical exactly for 200, 201 and 204 |
| OpenApiCompare.ExtraCodeReported | compare_openapi.py:201-212 | a served response code the reference lacks is reported as information |
| OpenApiCompare.CriticalCodeOf | compare_openapi.py:188-190 | a critical response finding concerns a code in {200, 201, 204} that the served operation lacks |
| OpenApiCompare.ResponsesCriticalIff | compare_openapi.py:185-199 | there is a critical response finding exactly when a reference code in {200, 201, 204} is missing |
| OpenApiCompare.CompareResponses | compare_openapi.py:181-214 | computes the response findings |
| OpenApiCompare.ReportMissingCodes | compare_openapi.py:188-199 | the loop over reference codes concatenates their blocks |
| OpenApiCompare.ReportExtraCodes | compare_openapi.py:201-212 | the loop over served codes concatenates their blocks |
| OpenApiCompare.OperationIdDiffs | compare_openapi.py:228-251 | operation-id findings are a missing id (warning) or a different id (info) at the operation's location |
| OpenApiCompare.MissingTags | compare_openapi.py:253-256 | a tag is missing exactly when the reference has it and the served operation does not; each is listed once |
| OpenApiCompare.TagDiffs | compare_openapi.py:257-266 | one warning `missing_tag` finding per missing tag, with that tag as the expected value |
| OpenApiCompare.OperationClassified | compare_openapi.py:217-278 | every operation finding has an operation category, the operation's location and an allowed severity |
| OpenApiCompare.MissingTagsReported | compare_openapi.py:253-266 | a `missing_tag` finding names a tag exactly when the reference operation has it and the served one does not |
| OpenApiCompare.MissingTagsOnce | compare_openapi.py:253-266 | no tag is reported missing twice |
| OpenApiCompare.CompareOperation | compare_openapi.py:217-278 | computes the operation's findings: operation id, then tags, then parameters, then responses |
| OpenApiCompare.ReportMissingTags | compare_openapi.py:257-266 | the loop builds the tag findings |
| OpenApiCompare.CheckOperationId | compare_openapi.py:228-251 | the operation-id findings |
| OpenApiCompare.NormIndexUnique | compare_openapi.py:336-337 | the normalised path index holds each normalised path once |
| OpenApiCompare.NormIndexEntries | compare_openapi.py:336-337 | each index entry pairs a path with its normalised form |
| OpenApiCompare.NormIndexCovers | compare_openapi.py:336-337 | every path's normalised form is a key of the index |
| OpenApiCompare.MissingMethodClassified | compare_openapi.py:358-374 | a reference method's findings follow the severity rules, and a `missing_method` one means the served endpoint lacks the method |
| OpenApiCompare.MissingMethodBlocks | compare_openapi.py:358-374 | one block per reference method, in order |
| OpenApiCompare.ExtraMethodDiffs | compare_openapi.py:377-389 | a served-only method gives only info `extra_method` findings |
| OpenApiCompare.ExtraMethodBlocks | compare_openapi.py:377-389 | one block per served method, in order |
| OpenApiCompare.MethodsClassified | compare_openapi.py:353-389 | every finding for a matched endpoint follows the severity rules, and missing methods are reported at the reference path |
| OpenApiCompare.MissingMethodReported | compare_openapi.py:358-374 | a reference method, not an extension, that the served endpoint lacks is reported as critical |
| OpenApiCompare.ExtraMethodReported | compare_openapi.py:377-389 | a served method, not an extension, that the reference endpoint lacks is reported as information |
| OpenApiCompare.NoExt | compare_openapi.py:359-360 | no `x-` key survives |
| OpenApiCompare.LookupNoExt | compare_openapi.py:359-361 | dropping the `x-` keys does not change lookups of other methods |
| OpenApiCompare.MissingMethodsNoExt | compare_openapi.py:358-374 | reference methods starting with `x-` contribute nothing |
| OpenApiCompare.ExtraMethodsNoExt | compare_openapi.py:377-389 | served methods starting with `x-` contribute nothing |
| OpenApiCompare.ExtensionsIgnored | compare_openapi.py:358-389 | comparing the methods with the `x-` keys removed gives the same findings |
| OpenApiCompare.EndpointBlocks | compare_openapi.py:340-389 | one block per normalised reference endpoint, in order |
| OpenApiCompare.EndpointClassified | compare_openapi.py:340-389 | an endpoint's findings follow the severity rules, and it reports missing methods only when the served document has the endpoint |
| OpenApiCompare.ExtraEndpointDiffs | compare_openapi.py:392-402 | a served-only endpoint gives only info `extra_endpoint` findings |
| OpenApiCompare.ExtraEndpointBlocks | compare_openapi.py:392-402 | one block per normalised served endpoint, in order |
| OpenApiCompare.SpecsClassified | compare_openapi.py:323-404 | every finding of the whole comparison has a severity its category allows |
| OpenApiCompare.MissingEndpointReported | compare_openapi.py:340-351 | a reference path whose normalised form the served document lacks, after prefix stripping, is reported as a critical missing endpoint |
| OpenApiCompare.MissingEndpointBlock | compare_openapi.py:340-351 | the block of a reference endpoint the served document lacks is exactly one critical `missing_endpoint` finding |
| OpenApiCompare.ExtraEndpointReported | compare_openapi.py:392-402 | a served endpoint whose normalised form the reference lacks is reported as information |
| OpenApiCompare.MissingEndpointHasNoMethods | compare_openapi.py:340-370 | a missing method is only ever reported for an endpoint the served document has |
| OpenApiCompare.SpecsVerdict | compare_openapi.py:636-642 | a failed run has a critical finding of a category that can be critical; a strict pass leaves only info categories |
| OpenApiCompare.CompareEndpointMethods | compare_openapi.py:357-389 | computes a matched endpoint's method findings |
| OpenApiCompare.ReportMissingMethods | compare_openapi.py:358-374 | the loop over reference methods concatenates their blocks |
| OpenApiCompare.ReportExtraMethods | compare_openapi.py:377-389 | the loop over served methods concatenates their blocks |
| OpenApiCompare.CompareSpecs | compare_openapi.py:323-404 | computes the comparison: the prefix is detected when none is given, then stripped, then the endpoint findings come first and the extra endpoints last |
| OpenApiCompare.ReportEndpoints | compare_openapi.py:340-389 | the loop over reference endpoints concatenates their blocks |
| OpenApiCompare.ReportExtraEndpoints | compare_openapi.py:392-402 | the loop over served endpoints concatenates their blocks |

## Left out

- Logging (`log_structured`), the HTTP handlers, request parsing, password hashing, slugs, data persistence (`save_data`/`load_data`) and demo data (`populate_demo_data`): they are outside the storage core or are I/O.
- `InMemoryModel.keys`, `values` and `items`: thin views of the objects map, read directly by the model.
- `time_ns()` and `uuid.uuid4()`: clock and randomness, passed in as the `now` and `freshId` parameters.
- The comparison script's `main` (argument parsing, fetching the served document, starting a server, the report formatters, exit codes): I/O. Only its pass/fail rule is modelled (`Differences.Passed`).
- Concurrency: the source has no locking, and the model is sequential.
- Container.StorageContainer.SharedStorage: with isolation disabled, the source pushes a bare storage onto the heap list. The model keeps it in a separate `shared` field, so the heap invariant does not cover it.
- Container.StorageContainer.FindSessionByCredentials: a user record without `email` or `password` raises `KeyError` in the source. The model treats it as not matching.
- Container.StorageContainer.GetStorage: the internal-error result is ruled out only under `Container.Consistent` with positive priorities and a safe touch. On a new session the contract states the new session and the invariant, not the whole new bucket table. It does not restate the new storage's `Valid()` beyond freshness.
- Container.StorageContainer.Valid: does not include `Container.Consistent`. The invariant is proved kept by the constructor, `Pop`, and by `Push`, `UpdatePriority`, `CreateSession` and `GetStorage` when every priority is positive and a touch is safe (`Container.SafeTouch`). It does not hold in general. A session saved under a raw IPv6 address and touched from another range leaves a stale bucket entry (`Container.StaleBucketBreaks`). A priority of 0 or less can tie with the forced 0 of the eviction loop, so that another session is popped.
- Json.Json: object keys are strings only. A YAML reference loaded with `yaml.safe_load` turns an unquoted response code such as `200:` into an integer key. The source then compares it unequal to the served `"200"` and to the critical codes, so it reports the code missing as a warning, not as critical, and the served `"200"` as extra. The model reads every key as a string and cannot express that input.
- Container.StorageContainer.Push: the sessions the quota evicts are stated only under `Container.Evictable`: every live priority is positive (as `time_ns()` priorities are), the bucket has no duplicates, and the sessions it drops are live. Outside those conditions (a priority tying with the forced 0, or a stale bucket entry) the contract states only that survivors keep their storage.
- Container.StorageContainer.Push: the session's storage is a non-null `Storage`, while the source's `push` defaults `data` to `None`. Every caller in the core (`get_storage`) passes a new `InMemoryStorage()`, so no behaviour of the core depends on the default.
- Container.StorageContainer.OnSessionAdded: the evicted sessions are stated under `Container.Evictable` only, as for Push.
- Container.StorageContainer.TrimBucket: the evicted sessions are stated under `Container.Evictable` only, as for Push.
- Container.StorageContainer.EvictOldest: the evicted session is stated only when priorities are positive and the bucket's head is live, as for Push.
- Container.StorageContainer.ForceOut: the evicted session is stated only when priorities are positive and the victim is live, as for Push.
- Container.StorageContainer.Reattribute: the evicted sessions are stated under `Container.Evictable` only, as for Push.
- Container.StorageContainer.UpdatePriority: on a change of address, the evicted sessions are stated under `Container.Evictable` only, as for Push.
- Container.StorageContainer.OnSessionTouched: a session saved under a raw address keeps its entry in the old bucket when reattributed. This is modelled as written and not corrected. On reattribution, the evicted sessions are stated under `Container.Evictable` only, as for Push.
- Stores.Record: a record is a map from field names to strings. The source's dict-valued fields (lists of tags and the like) are not modelled.
- Strings.Upper: ASCII letters only, with no Unicode case mapping.
- Json.Show: renders None, booleans, integers and strings as Python does. Lists and dicts get the placeholders `[...]` and `{...}` instead of Python's full rendering, which affects only message texts.
- OpenApiCompare.MissingTags: Python iterates a `set`, whose order is unspecified. The model reports missing tags in their first-occurrence order in the reference operation.
- Non-object values where the source calls `.get`, or iterates a dict, and would raise `AttributeError`/`TypeError` are read as empty objects or empty lists. This covers a non-dict operation, parameter or `paths`. A non-string `$ref` is read as not a pointer (`{}`).
- Three inputs are read differently without an error. A string-valued `tags`, which `set()` would split into characters, is read as no tags. Two objects with the same entries in a different order are unequal in the model, while Python's dict `==` ignores order; this affects the location and operation-id comparisons. Floating-point values have no representation in `Json.Json`.
- Duplicate keys cannot occur in a Python dict. The association lists built by the model never have them (`OpenApiCompare.ByNameUnique`, `OpenApiCompare.NormIndexUnique`, `OpenApiPaths.StrippedKeys`). Documents given as input are read with the first match winning.
