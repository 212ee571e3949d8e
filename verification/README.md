# aws-iam-authorizedkeys: the authorization decision, in Dafny

`aws-iam-authorizedkeys` is an OpenSSH `AuthorizedKeysCommand` helper. The SSH daemon runs it
with a user name. The program looks the user up in AWS IAM and applies an optional allow-list
of user names and of IAM groups. When the user passes, it prints one authorized-keys line
`<key body> # <user>` for every active SSH public key whose body it could fetch.

This project models the decision that `main()` in `main.go` takes:

- `StringOrder` defines Go's `<` on strings (`Less`) and `Sorted`. It proves that `Less` is a
  strict total order. Go compares the UTF-8 bytes, which orders strings the same way as
  comparing their code points.
- `AllowList` holds `Permits`, the meaning of the user allow-list: an empty list restricts
  nobody. The group allow-list is different: when it is empty the group check is skipped
  (main.go:129), so a user who failed the user check is denied (main.go:155-157). `Resolve`
  states this. So a configuration that sets only `allowed.groups` restricts nobody: the groups
  are consulted only after a non-empty user list has refused the name, and with an empty user
  list every user with keys gets them (`OpenUserListAllowsEveryoneWithKeys`). The module also
  models `sort.SearchStrings` as a binary-search method, and the search-then-compare membership
  test as `Contains`.
- `Directory` describes the IAM calls as plain values. `Answers` holds the result of
  `ListSSHPublicKeys` (a key list, an AWS error with its code, or another error), the result of
  `ListGroupsForUser`, and a map from key id to body that stands in for `GetSSHPublicKey`. An id
  the map lacks is a fetch that fails. `Request` records each call made.
- `KeyEmission` models the final loop: it skips keys whose status is not `"Active"`, fetches
  each remaining key and prints a line for each fetch that succeeds. `EmitKeys` is the loop.
  `Active`, `Fetches` and `Lines` say what the loop must produce.
- `Authorizer` contains `Authorize`, the whole of `main()` with its `allowed` flag, early exits
  and group loop. `Authorize` is proved equal to a declarative description of the run:
  `Resolve` gives the verdict, `Expected` gives the exit status and printed lines, and
  `ExpectedRequests` lists the IAM calls. The policy lemmas are stated about that description.

The command line is `args`, with the program name first, as in `os.Args`. The configuration is
`Config(users, groups)`, and `Loaded()` requires both lists to be sorted, as start-up leaves
them. An outcome is `ExitOk(lines)` (status 0) or `ExitError` (status 1).

The source has no verdict type. `Verdict` names the points where `main()` stops:
- `UserNotFound` for `NoSuchEntity`
- `ListingFailed` and `GroupListingFailed` for the two status-1 exits
- `NoKeys`, `Denied` and `Allowed`

Key status is compared with the string `"Active"`, as the code does, rather than treated as a
three-valued enumeration.

## Model

| member | source | states |
|---|---|---|
| `AllowList.SearchStrings` | main.go:89 | For a sorted list, returns the smallest index whose entry is not below the name: every earlier entry is below it, no later entry is, and the index is at most the length |
| `AllowList.SearchFindsListed` | main.go:89-90 | When the name is listed, the search index is in bounds and holds the name, even with duplicates |
| `AllowList.Contains` | main.go:87-93 | The membership test (search, then `i < len && list[i] == name`) is true exactly when the name is in the sorted list, so it ignores duplicates and the order the names were configured in |
| `Authorizer.AnyGroupAllowed` | main.go:141-147 | The group scan with `break` reports a hit exactly when some group of the user is on the sorted group allow-list |
| `KeyEmission.EmitKeys` | main.go:159-187 | The loop's printed lines are `Lines` and its `GetSSHPublicKey` calls are `Fetches`: one call per active key and one line per successful fetch, in listing order |
| `KeyEmission.Active` | main.go:160-163 | The keys that are not skipped are exactly the listed keys with status `"Active"`, and there are no more of them than listed keys |
| `KeyEmission.ActiveCount` | main.go:160-165 | The number of keys that pass the status filter (one `wg.Add(1)` each) is exactly the number of listing positions whose status is `"Active"`, duplicates counted |
| `KeyEmission.FetchesExactlyActive` | main.go:160-172 | There is one `GetSSHPublicKey` for each active key, all for this user, and an id is fetched exactly when some listed key with that id is active |
| `KeyEmission.LinesAreSuccessfulFetches` | main.go:172-181 | Every printed line is `body # user` for an active key whose fetch succeeded, and every such key has its line printed |
| `KeyEmission.LinesCount` | main.go:165-187 | The number of lines equals the number of listing positions whose key is active and fetched successfully, so it is at most the number of active keys |
| `KeyEmission.LateBindingDiffersUnlessSameId` | main.go:160-169 | `LateBoundFetches` models the loop as written when compiled at a Go language version before 1.22, with no goroutine running before the loop ends: each active key's goroutine fetches the last listed key's id. For every non-empty listing, this equals the intended fetches exactly when every active key has the last listed key's id |
| `KeyEmission.LateBindingFetchesInactiveKey` | main.go:160-172 | For the listing [k1 Active, k2 Inactive], the late-bound loop fetches the inactive k2, while the intended loop fetches only k1 |
| `Authorizer.Authorize` | main.go:74-188 | One invocation ends with exactly the outcome `Expected` and makes exactly the IAM calls `ExpectedRequests`, given sorted allow-lists |
| `Authorizer.NoArgumentIsBenign` | main.go:79-81 | With no user-name argument the run exits with status 0, prints nothing and calls nothing |
| `Authorizer.UnknownUserIsBenign` | main.go:104-112 | If key listing fails with `NoSuchEntity`, the run exits with status 0 and no output after that one call, for any configuration |
| `Authorizer.KeyListingErrorFails` | main.go:104-116 | Any other key-listing error (another AWS code, or a non-AWS error) ends with status 1 after that one call |
| `Authorizer.NoKeysIsBenign` | main.go:122-126 | A user with zero keys gets status 0 and no output, and groups are never requested |
| `Authorizer.RequestsShape` | main.go:99-185 | The key listing is always the first call. The group listing appears exactly when groups are consulted. Every other call is a `GetSSHPublicKey` for this user, and only for an allowed user |
| `Authorizer.OpenUserListAllowsEveryoneWithKeys` | main.go:84-93 | With an empty user allow-list, any user with at least one key gets the lines of their active, fetchable keys, and groups are never requested |
| `Authorizer.GroupsRequestedOnlyWhenNeeded` | main.go:128-134 | The group listing is requested exactly when the user has keys, a non-empty user allow-list does not list them, and the group allow-list is non-empty |
| `Authorizer.GroupMembershipDecides` | main.go:128-157 | Once groups are consulted: a listing error ends with status 1. Otherwise the user gets their lines exactly when one of their groups is on the group allow-list, and gets status 0 with no output when none is |
| `Authorizer.DeniedIsBenign` | main.go:154-157 | A user denied by both checks gets status 0 and no output, and no key is fetched |
| `Authorizer.OnlyActiveKeysFetched` | main.go:159-172 | A key id is fetched exactly when the user is allowed and some listed key with that id is active |
| `Authorizer.AllowedOutput` | main.go:159-187 | An allowed user's run always exits with status 0, whatever fetches fail. It prints one well-formed line per active key fetched successfully, so at most one line per active key |

## Left out

- The SIGPIPE watcher goroutine and its early exit with status 0 (main.go:40-48). This is signal plumbing.
- Syslog setup and every `log.Print*` call (main.go:50-58, 110, 114, 137). Logging is output to
  another sink with no contract. syslog.go is not part of this model.
- Reading and parsing the YAML configuration (main.go:60-71), including the exit on a malformed
  file. This is file I/O through a foreign library. The sort at main.go:69-70 is taken as the
  precondition `Config.Loaded()`. config.go repeats the same start-up code and is not part of
  this model.
- The AWS session and SDK plumbing (main.go:95-102, 131-134, 167-172). Each call's result is an
  input value in `Answers`, so every call is assumed to return exactly one answer. A call that
  never returns is not modelled: no timeouts are set, so `wg.Wait()` (main.go:187) can block for
  good. The SDK's own retries are not modelled either.
- The `DEBUG` echoes to standard error (main.go:75, 118-120, 149-151, 174-176). They never reach
  standard output.
- Pagination: `IsTruncated` is never checked (main.go:98, 130). Each listing is modelled as one
  complete sequence.
- Nil dereferences of SDK fields (`*key.Status`, `*group.GroupName`, the fetched body). The
  model has no nil values.
- `EmitKeys`: the goroutines, `sync.WaitGroup` and `wg.Wait()` (main.go:165-187) become a
  sequential loop. Lines come out in listing order, while the source prints them in completion
  order. With a per-iteration loop variable (language version 1.22 or later), the set of lines
  and their count are the same; at an earlier language version they can differ (see Findings).
  The atomicity of each `Printf` is not modelled.
- Go strings are byte strings. The model uses Dafny strings of Unicode scalar values, so inputs
  that are not valid UTF-8 are not modelled.

## Findings

| source | as written | input that shows it | evidently intended | confidence | as-written member | corrected member |
|---|---|---|---|---|---|---|
| main.go:160-169 | Each goroutine builds its `GetSSHPublicKey` request from the shared loop variable `key`, which has per-loop scope at a Go language version before 1.22, at the moment the goroutine runs | Keys [k1 Active, k2 Inactive] where the goroutine runs after the loop ends: it fetches k2, an inactive key, and never fetches k1 | One fetch per active key, for that key's own id | medium, not executed; only when compiled at a Go language version before 1.22 (an older toolchain, or a `go.mod` whose `go` line is below 1.22 or missing) and with a schedule that runs goroutines late | `KeyEmission.LateBindingFetchesInactiveKey` | `KeyEmission.FetchesExactlyActive` |
