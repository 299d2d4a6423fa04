# Decision logic of the Dremio AWS Edition client helper

The client drives a Dremio AWS Edition deployment. It can deploy the gateway
through CloudFormation, find the coordinator instance, and start and stop
projects through the gateway's REST API. This project models the part of
`helper.py` that makes decisions once the cloud SDK or the gateway has
answered. That part covers:

- validating the configuration keys;
- searching instance tags;
- choosing the coordinator;
- sorting the stack outputs and cutting the host and the gateway instance id
  out of the chosen URL;
- polling a custom project's creation progress;
- projecting the cluster list into engine descriptors;
- building the start and stop requests;
- cleaning the authentication-type output.

Every SDK or HTTP answer is an input to the model:

- the parsed configuration file (`Config.ParsedConfig`);
- the EC2 reservations (`Tags.Reservation`);
- the stack outputs (`Outputs.Output`, in an array that is sorted in place);
- the gateway's progress replies (a function from step index to
  `Status.ProgressReply`);
- the cluster list (a function from URL to `Option<seq<Cluster>>`);
- the POST answer (a function from `Actions.Request` to its truthiness);
- the SSM invocation (a function from commands and instance id to
  `Option<Invocation>`).

A falsy answer — a non-200 status, an exception swallowed by the GET/POST
helpers, an empty body — is `None` or `Falsy`. An exception that escapes to
the caller is one of two kinds. A missing `default` section, the `KeyError`
of helper.py:27, is `Config.NoSection`. An `IndexError` or a `TypeError`
that escapes is `Common.Error`.

Modules, one per concern of `helper.py`:

- `Common`: option, result and the escaping `IndexError` and `TypeError`.
- `Text`: Python's `str.split` on one character, `"".join`,
  `str.replace(c, "")` and the code-point order of `str` comparison. Each
  comes with round-trip and order lemmas.
- `Config`: the `Helper` class with its `conf` field and
  `parse_and_validate`.
- `Tags`: `search_tags` and `find_coordinator`.
- `Outputs`: the post-deployment block of `deploy_dremio`.
- `Status`: `check_project_status`, both corrected and as written.
- `Engines`: `get_engines`.
- `Actions`: `open_dremio_project`, `stop_dremio_project` and the JSON text
  they send.
- `Auth`: `get_authentication_method`.

The model follows the code where it differs from what its callers or its
comments expect:

- `parse_and_validate` returns a boolean, although the command-line client
  unpacks its result as a tuple of values.
- `search_tags` returns a boolean flag, although its docstring promises the
  tag's value or `None`.
- `deploy_dremio` returns three values, the host, the instance id and the
  initialisation URL (helper.py:175), although the command-line client
  unpacks only `host, instance_id` from it (aws-edition-client.py:18).
  `Outputs.Deployment` keeps all three.

## Model

| member | source | states |
|---|---|---|
| `Config.Helper.constructor` | helper.py:19-21 | a new helper has no configuration (`conf` is `None`) |
| `Config.SectionView` | helper.py:27 | the `default` section, as `configparser` presents it, exists exactly when the file has that section; its keys are the `DEFAULT` keys plus the section's own; a key of the section has the section's value, and a key only in `DEFAULT` has the `DEFAULT` value |
| `Config.Validate` | helper.py:27-33 | validation raises `KeyError` exactly when there is no `default` section; it succeeds exactly when every required key is in that section or in `DEFAULT`; on failure it reports a non-empty set holding exactly the required keys that are absent |
| `Config.Helper.ParseAndValidate` | helper.py:23-33 | the result agrees with `Validate`; on success `conf` becomes the `default` section view; on failure or `KeyError` it stays the whole parsed configuration |
| `Tags.SearchTags` | helper.py:368-383 | true exactly when some tag's key equals the criteria (so false for an empty list), after a scan of the whole list |
| `Tags.FindCoordinator` | helper.py:415-428 | the result is the first instance, in reservation-then-instance order, whose tags lack `dremio_role`; an instance without a `Tags` entry ends the search with `None` (the swallowed `KeyError`) |
| `Tags.Coordinator` | helper.py:417-428 | the scan over the instances in visiting order: a coordinator it returns is one of the instances, has tags, and lacks `dremio_role` |
| `Tags.CoordinatorIsFirstUntagged` | helper.py:417-422 | a coordinator found is in the list, lacks the role tag, and every instance before it carries tags that include the role tag |
| `Tags.NoCoordinatorIff` | helper.py:417-424 | when every instance has tags, `None` is returned exactly when every instance carries `dremio_role` |
| `Text.Split` | helper.py:160-162 | `str.split` yields at least one piece, and no piece contains the separator |
| `Text.SplitHasSeveralPieces` | helper.py:162 | a split has at least two pieces exactly when the separator occurs in the string |
| `Text.SplitKeepsAbsent` | helper.py:162 | a character absent from a string is absent from every piece of its split |
| `Text.JoinSplit` | helper.py:160 | joining the pieces of a split with the separator gives back the string |
| `Text.SplitJoin` | helper.py:160 | splitting the join of separator-free pieces gives back the pieces |
| `Text.Less` | helper.py:157 | Python's `<` on strings: no string is less than itself, and a proper prefix is less than the longer string |
| `Text.LessTotal` | helper.py:157 | the string order used to sort the keys is total |
| `Text.LessAsymmetric` | helper.py:157 | the string order is asymmetric |
| `Text.LessTransitive` | helper.py:157 | the string order is transitive |
| `Text.LessOrEqualTransitive` | helper.py:157 | its reflexive closure is transitive |
| `Outputs.SortByKey` | helper.py:157 | after the in-place sort, the outputs are in `OutputKey` order and are a permutation of the outputs before it |
| `Outputs.InsertAt` | helper.py:157 | one insertion step extends the sorted prefix by one element, keeps the multiset and leaves everything after index `i` unchanged |
| `Outputs.SwapDown` | helper.py:157 | one swap exchanges exactly `a[j - 1]` and `a[j]`, leaves the rest unchanged, and keeps the sortedness invariants of the insertion and the multiset |
| `Outputs.ParseInitUrl` | helper.py:160-162 | a parsed URL yields a host without `/` and an instance id without `/` or `=`, and keeps the URL itself; it raises `IndexError` exactly when the URL has fewer than four `/`-separated pieces or its fourth piece has no `=` |
| `Outputs.SelectDeployment` | helper.py:158-167 | the URL parsed is the value of the output at index 0 when `private` and at index 1 otherwise; too few outputs raise `IndexError` |
| `Outputs.DeployOutputs` | helper.py:155-167 | sorts the outputs in place (sorted, a permutation), then returns what `SelectDeployment` gives for the sorted outputs |
| `Outputs.ParseBuiltUrl` | helper.py:160-167 | a URL `<scheme>//<host>/<query>=<id>` without stray separators parses back to exactly that host and id, with the URL kept as `init_url` |
| `Outputs.SortedHeadIsLeast` | helper.py:157-159 | in outputs sorted by key, the first has a key no greater than any other |
| `Outputs.PrivateSelectsLeastKey` | helper.py:157-159 | a private deployment takes its URL from an output whose key is no greater than the key of any output of the stack |
| `Outputs.TwoOutputsSelection` | helper.py:157-167 | with two outputs under distinct keys, `private` selects the one with the smaller key and public the other, whatever their original order |
| `Status.Classify` | helper.py:329-336 | a reply stops the loop with success exactly when it has entries and its last one has `isFinal` and `isSuccess` both `"true"`; it stops with a failure exactly when that last entry has `isFinal` `"true"` and `isSuccess` `"false"`, and the failure carries that entry's `error`; in every other case the loop goes on |
| `Status.PollFrom` | helper.py:326-336 | the loop from step `i` makes at most 20 requests in all; when it returns `None`, it has made all 20 |
| `Status.CheckProjectStatus` | helper.py:325-336 | requests progress steps 0, 1, … in increasing order, at most 20 of them, and returns the verdict and request count of `PollFrom` |
| `Status.PollStopsAtFirstFinal` | helper.py:326-336 | the loop either returns `None` after 20 replies that each let it go on, or stops at the first reply that is a final success or a final failure and returns that reply's verdict |
| `Status.PollSucceedsIff` | helper.py:326-334 | the result is `True` exactly when some step's reply is a final success and every earlier reply is neither a final success nor a final failure |
| `Status.PollFailsIff` | helper.py:326-336 | the result is the error text `e` exactly when some step's reply is a final failure whose last entry carries `e`, and every earlier reply is neither a final success nor a final failure |
| `Status.PollNoVerdictIff` | helper.py:326-336 | the result is `None` exactly when none of the 20 replies is a final success or a final failure |
| `Status.SuccessOnThirdPoll` | helper.py:326-334 | replies non-final, falsy, then final-success give `True` after exactly three requests |
| `Status.LastSlice` | helper.py:331 | `data[-1:]` is empty for an empty list and otherwise holds just the last entry |
| `Status.PollAsWritten` | helper.py:326-336 | the loop as written raises `TypeError` exactly when some reply from step `i` on is truthy with a non-empty `data` list |
| `Status.AsWrittenNeverDecides` | helper.py:331-336 | the loop as written can only return `None` or raise `TypeError`; it never returns `True` or an error text |
| `Status.ImmediateSuccessRaises` | helper.py:331-334 | a first reply that reports a final success makes the loop as written raise `TypeError`, while the corrected loop returns `True` after one request |
| `Engines.GetEngines` | helper.py:452-466 | a falsy reply gives `[]`; otherwise there is one descriptor per cluster, in order, copying `name`, `awsProps.instanceType`, `dynamicConfig.containerCount` and `shutdownInterval` |
| `Actions.Escape` | helper.py:57 | escaped string text is at least as long as the string and contains no raw newline |
| `Actions.UnescapeEscape` | helper.py:57 | decoding escaped string text gives back the string |
| `Actions.Dumps` | helper.py:57 | serialised JSON is at least two characters long; a string serialises to a literal enclosed in `"` whose unescaped content is the string again; an object serialises to text enclosed in `{` and `}` |
| `Actions.ActionPayload` | helper.py:222-226 | the payload is an object with exactly three members, keyed `action`, `id` and `instanceId`, whose `action` is `"START"` or `"STOP"`, whose `id` is the project id and whose `instanceId` is the instance |
| `Actions.ActionRequestBody` | helper.py:222-227 | the corrected body is exactly the `json.dumps` text of the payload: `{`, the members `"action": "<START or STOP>"`, `"id": "<project id>"` and `"instanceId": "<instance>"` in that order separated by `, `, then `}` |
| `Actions.ActionRequestAsWritten` | helper.py:221-227 | the request start/stop actually send (payload serialised here and again at helper.py:57): posted to the project's action URL, with a body that is a JSON string literal, enclosed in `"` |
| `Actions.ActionRequest` | helper.py:221-227 | the corrected request: the same action URL, with a body that is a JSON object, enclosed in `{` and `}` |
| `Actions.DoubleEncodedBody` | helper.py:222-227 | as written, the POST body is a JSON string literal whose decoded content is the text of the intended object, which starts with `{` |
| `Actions.OpenDremioProject` | helper.py:220-231 | in the corrected form (payload serialised once, see Findings): true exactly when the gateway answers truthily to the START payload posted to `http://<host>/aws/gateway/project/<id>/action` |
| `Actions.StopDremioProject` | helper.py:233-244 | in the corrected form (payload serialised once, see Findings): true exactly when the gateway answers truthily to the STOP payload posted to the same endpoint |
| `Text.RemoveChar` | helper.py:450 | the result contains no occurrence of the removed character and is no longer than the input |
| `Text.RemoveCharKeepsOthers` | helper.py:450 | every other character occurs in the result as often as in the input |
| `Text.RemoveCharAbsent` | helper.py:450 | removing a character that does not occur changes nothing |
| `Text.RemoveCharIsConcatOfSplit` | helper.py:450 | `s.replace(c, "")` equals `"".join(s.split(c))` |
| `Auth.GetAuthenticationMethod` | helper.py:446-450 | runs the `auth.type` command on the coordinator; the result is `None` exactly when the invocation is falsy, and otherwise is the standard output with every newline removed and every other character kept |

## Findings

| source | as written | input that shows it | evidently intended | confidence | as-written member | corrected member |
|---|---|---|---|---|---|---|
| helper.py:331-333 | `last = resp['data'][-1:]` is a list; `last['isFinal']` indexes that list with a string | a first reply whose `data` is `[{"isFinal": "true", "isSuccess": "true"}]`: raises `TypeError` instead of returning `True` | decide on the last entry, `resp['data'][-1]` | high; not executed | `Status.PollAsWritten` (`Status.AsWrittenNeverDecides`, `Status.ImmediateSuccessRaises`) | `Status.CheckProjectStatus` (`Status.PollSucceedsIff`, `Status.PollFailsIff`, `Status.PollNoVerdictIff`) |
| helper.py:222-227, helper.py:57 | the start and stop methods pass `json.dumps(payload)` to the POST helper, which applies `json.dumps` again | any start or stop: the body is `"{\"action\": \"START\", ...}"`, a JSON string and not an object | serialise the payload once | medium; not executed | `Actions.ActionRequestAsWritten` (`Actions.DoubleEncodedBody`) | `Actions.ActionRequest` (used by `Actions.OpenDremioProject` and `Actions.StopDremioProject`) |

## Left out

- Session creation (`get_boto3_session`, helper.py:86-103) and the `session` field are not modelled. They only create boto3 sessions and assume an STS role.
- Stack creation and its waiter in `deploy_dremio` (helper.py:108-154) are not modelled. The model starts from the stack outputs.
- The readiness poll in `deploy_dremio` (helper.py:169-173) is not modelled. It has no bound and sleeps 100 seconds between tries. The model returns what `deploy_dremio` would return once that poll ends.
- `deploy_coordinator` (helper.py:177-218) is boto3 instance creation. Its success path ends in a bare `ret`, so it returns `None` even when it creates an instance.
- `create_project` (helper.py:246-252) calls the GET helper without a URL, so it always raises `TypeError`. `create_custom_project` (helper.py:338-366) depends on it and is left out too.
- `create_s3_bucket`, `create_ebs`, `create_efs` and `execute_command_on_ec2` (helper.py:254-323, 430-444) are not modelled. They are foreign SDK calls; the invocation is an input to `Auth.GetAuthenticationMethod`.
- The GET and POST helpers (helper.py:35-77) are not modelled. Their headers, the bearer token and the printed exception are left out. An exception becomes a falsy answer.
- `json_serial` (helper.py:79-84) only formats dates for printing.
- Reading the configuration file (helper.py:24-25) is not modelled, and neither is `configparser`'s lower-casing of option names. The parsed content is an input.
- The filters passed to `describe_instances` in `find_coordinator` (helper.py:401-415) are not modelled, and neither is any SDK exception turned into `None`. The reservations are an input.
- Replies without a `data`, `clusterList` or entry field would raise `KeyError`. That is not modelled.
- The progress URL text is not modelled. `Status.CheckProjectStatus` records the progress step indices it requests instead.
- `Actions.Escape`: escapes only `"`, `\` and newline. `json.dumps` also escapes other control characters and non-ASCII characters.
- `Outputs.SortByKey`: states sorted and permutation but not stability. Python's sort is stable. Stability matters only for equal keys, which a stack's outputs do not have.
- The command-line client `aws-edition-client.py` is not part of this model. It is call sequencing with a fixed 240-second sleep.
