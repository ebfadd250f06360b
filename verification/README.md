# OpenShift AI test utilities: a verified model

The repository holds the end-to-end tests of an AI platform on OpenShift. Most of it drives a cluster; this project
models the parts of it that compute or keep state, and proves what they promise. The Kubernetes objects are
datatypes, the services behind them are parameters, and the libraries the code leans on are small stated models.

- `Shlex`, `Template`, `InferenceCommand`, `BodyQuoting`, `MustGather`: shell commands built as text and split again;
  `CommandParts`: what templates, host and query put into them; `CommandLimits`: inputs they do not cope with.
- `JsonText`, `InferenceReply`: the raw reply parsed into a dictionary, with the JSON text compacted on the way;
  `JsonGrammar`: the JSON recogniser against JSON values; `ReplyStatus`: which replies are time-outs; `ReplyLimits`:
  replies the parser does not cope with.
- `FixtureLifecycle`: fixtures as a dependency graph, created and deleted in fresh, pre-upgrade and post-upgrade runs;
  `FixtureRuns`: what such runs come to, read off the graph and the requests.
- `DscScopes`: nested patches of the platform's components, put back on every way out; `ScopeViews`: what the code
  inside finds.
- `ServingRuntime`, `RuntimeEdits`, `RuntimeMerge`: the in-place merge of container overrides into a runtime template.
- `Logging`: the rewired logger tree and the patched `addHandler`.
- `Polling`, `PodProbe`, `Stability`: waits on one budget, one look at the pods, and the stability counters.
- `Collection`: the two hooks that select tests; `CollectionRules`: their verdicts on one test.
- `RegistryFamily`: numbered families of database resources, their wiring, their change to TLS and their removal.
- `Datasets`: question sets loaded by document and retrieval mode.
- `JiraVersions`: whether a bug is still open for the installed operator; `JiraRules`: what is read out of names,
  statuses and operators.
- `Selection`, `Texts`, `Wrappers`: shared vocabulary.

Where the source changes objects step by step the model has classes and methods with loops, each proved equal to a
specification function; the theorems are about these functions. `dafny verify dfyconfig.toml` checks the project.

## Where the code falls short of its description

For each of these a theorem says exactly when the promise holds, and a lemma shows an input for which it does not.

- The body of a request is put between single quotes unescaped: the command is right exactly for bodies without a
  single quote (`BodyQuoting.BodyQuotingExact`, `CommandLimits.ApostropheWitness`).
- The port rewrite for internal services replaces `localhost` in the whole command, the request body included
  (`InferenceCommand.ForwardedBodyExact`, `CommandLimits.HostNameWitness`).
- Names quoted with `shlex.quote` end up inside other single quotes, so a name that needs quoting is not protected
  (`MustGather.CommandExact`, `CommandLimits.BlankNameWitness`).
- A reply without a JSON content type has its JSON line parsed as a header as well (`InferenceReply.PlainReplyExact`,
  `ReplyLimits.PlainFails`).
- The gateway time-out is looked for in the whole output, so a successful reply that mentions one in its body is
  reported as one (`InferenceReply.RoundTrip`, `ReplyStatus.TimedOutExactly`, `ReplyLimits.MentionFails`).
- The header part of a JSON reply reaches to the last line that starts with a brace, so a body with a further such line
  is read as headers too (`InferenceReply.RoundTrip`, `ReplyLimits.BrokenLineFails`).
- A project created but not ready is left behind, and so is a fixture whose finalizer raises before it deletes
  (`FixtureRuns.FreshRunRestores`, `FixtureRuns.RequestedProjectStays`, `FixtureRuns.StuckFixtureStays`).
- Selecting both upgrade phases in one run creates nothing and finds namespaces only
  (`FixtureRuns.BothPhasesFindNothing`, `FixtureRuns.BothPhasesWitness`).
- An upgrade restores the cluster when both phases ask for the same things; what only the first asks for stays
  (`FixtureRuns.UpgradeRestores`, `FixtureRuns.OneSidedRequest`), possibly without what it depends on
  (`FixtureRuns.UpgradeRestoresExactly`, `FixtureRuns.NamespaceFirst`).
- A record logged on the root logger is dropped when its message was logged there before (`Logging.Delivery`,
  `Logging.RepeatedWitness`).
- A handler list holds two handlers once a later call adds a queue handler other than the first
  (`Logging.AtMostOneExactly`, `Logging.SecondHandlerWitness`), and a record that ends its way there is enqueued twice
  (`Logging.Delivery`, `Logging.TwiceWitness`).
- The wait for pods to exist is not counted against the time given to `verify_no_failed_pods`
  (`Polling.WithinGivenTimeExactly`, `Polling.OverrunWitness`).
- Secrets of database deployments follow a fixed base name, not the one given (`RegistryFamily.SecretsExistExactly`,
  `RegistryFamily.OtherBaseWitness`).
- An upgrade cycle removes the first database only (`RegistryFamily.Cluster.UpgradeCycle`, for every other count).
- "QA records are always restricted to the document IDs present" does not hold for a data set without documents
  (`Datasets.OwnDocumentsExactly`, `Datasets.SubsetExactly`, `Datasets.EmptySubset`).

The catalog wait needs two equal samples even when asked for none; `Stability.WaitForCatalog` says how many.

## Model

| member | source | states |
|---|---|---|
| `InferenceCommand.GenerateCommand` | utilities/inference_utils.py:300-342 | the command text, and the error for a missing input, query or protocol; for shell-safe input, splitting the text gives exactly the intended argument list, also after any port rewrite |
| `InferenceCommand.CommandMeans` | utilities/inference_utils.py:305-340 | for every shell-safe body, header, URL, CA path, token and extra arguments, the command means the intended list |
| `InferenceCommand.ArgumentVector` | utilities/inference_utils.py:435-474 | `run_inference` up to the call: with or without forwarding, the argument vector is the intended one with the port put behind each host name |
| `InferenceCommand.MeansJoined` | utilities/inference_utils.py:319-340 | two parts that mean lists, joined by a blank, mean the joined list, also under the rewrite |
| `InferenceCommand.MeansFields` | utilities/inference_utils.py:337-340 | plain text with blanks means its blank-separated words |
| `InferenceCommand.RewriteAcross` | utilities/inference_utils.py:459 | `replace` on a text acts on both sides of any character the host name does not hold |
| `InferenceCommand.RewriteIdentity` | utilities/inference_utils.py:459 | the rewrite leaves a text alone exactly when `localhost` does not occur in it |
| `InferenceCommand.ForwardedBodyExact` | utilities/inference_utils.py:459-468 | the request body reaches an internal service verbatim exactly when it does not mention `localhost`: the rewrite meant for the URL covers the whole command |
| `InferenceCommand.QuoteFreeInputs` | utilities/inference_utils.py:245-251 | templates and values without single quotes give a body and a header without one |
| `CommandParts.BodyTakes` | utilities/inference_utils.py:245-251 | the body takes the query, as text or as its JSON dump, and the model's name where its template says so |
| `CommandParts.HeaderTakes` | utilities/inference_utils.py:305 | the header takes the model's name and leaves a query placeholder as it is written |
| `CommandParts.EndpointTakes` | utilities/inference_utils.py:264 | the endpoint takes the name of the service, not of the model |
| `CommandParts.UrlArguments` | utilities/inference_utils.py:264-273 | over HTTP the command ends in one URL, over gRPC in the host, with its port when exposed, and the method as two arguments; any other protocol is an error |
| `CommandParts.QuerySent` | utilities/inference_utils.py:229-243 | the caller's own query unless a default is asked for; the default for the inference type where there are several, when it is there and not empty |
| `BodyQuoting.BodyQuotingExact` | utilities/inference_utils.py:319 | with simple text around it, the command splits as intended exactly when the body holds no single quote |
| `BodyQuoting.QuoteLosesBody` | utilities/inference_utils.py:319 | a body with a single quote is never read back as one argument when the rest of the command is simple |
| `BodyQuoting.QuoteParity` | utilities/inference_utils.py:467-473 | in text without other special characters the lexer is outside quotes exactly after an even number of them |
| `Shlex.SplitAtBlank` | utilities/inference_utils.py:467-473 | a blank after a complete prefix separates for good |
| `Shlex.PlainWordExact` | utilities/inference_utils.py:467-473 | an unquoted text is read as itself exactly when it is non-empty and holds no special character |
| `Shlex.WrappedExact` | utilities/inference_utils.py:305-319 | a text wrapped in single quotes is one verbatim argument exactly when it holds no single quote |
| `Shlex.WrappedExactAfter` | utilities/inference_utils.py:319 | the same behind any complete command |
| `Shlex.QuoteRoundTrip` | utilities/must_gather_collector.py:119-134 | `shlex.split` undoes `shlex.quote` for every string |
| `Shlex.QuoteIsBareExactly` | utilities/must_gather_collector.py:119-134 | `shlex.quote` adds no quotes exactly for non-empty strings of safe characters |
| `Shlex.DoubleQuoteRoundTrip` | utilities/inference_utils.py:467-473 | between double quotes, escaping quotes and backslashes gives back any text |
| `Shlex.BackslashStays` | utilities/inference_utils.py:467-473 | before any other character between double quotes the backslash stays |
| `Shlex.BackslashRoundTrip` | utilities/inference_utils.py:467-473 | a text with a backslash before every character is read as itself |
| `Template.SubstituteAddsNothing` | utilities/inference_utils.py:248-251 | `safe_substitute` brings in no character that neither template nor values hold |
| `Template.ValueGoesInVerbatim` | utilities/inference_utils.py:248-251 | a value goes in verbatim and is not expanded again |
| `Template.BracedFirst` | utilities/inference_utils.py:248-251 | a name in braces is replaced whatever follows it, and stays as written without a value |
| `Template.UnknownStays` | utilities/inference_utils.py:248-251 | an unknown name stays as written; a doubled sign is one sign |
| `Template.LoneSign` | utilities/inference_utils.py:248-251 | a sign that begins no placeholder stays |
| `MustGather.Command` | utilities/must_gather_collector.py:105-135 | the command, the error for component and namespaces together; splitting gives one script argument after `--` exactly when all namespace names are safe, or the component name holds no quote |
| `MustGather.CommandExact` | utilities/must_gather_collector.py:108-137 | the same for the command as a function of the options: the inner quoting and the outer quotes cancel unless a name needs quoting |
| `MustGather.ExportsQuoteFree` | utilities/must_gather_collector.py:118-135 | the exports hold no quote exactly when every name given is safe |
| `MustGather.OneExport` | utilities/must_gather_collector.py:118-134 | each kind of namespace is exported under its own variable; an empty name is not exported |
| `MustGather.LabelsAreSafe` | utilities/must_gather_collector.py:119-134 | every DNS label is a safe name |
| `CommandLimits.ApostropheWitness` | utilities/inference_utils.py:319 | a question with an apostrophe: the command does not split as intended |
| `CommandLimits.HostNameWitness` | utilities/inference_utils.py:459 | a question naming the host: the service is asked another one |
| `CommandLimits.BlankNameWitness` | utilities/must_gather_collector.py:119-135 | a namespace name with a blank: the script is not one argument |
| `JsonText.CompactKeepsValue` | utilities/inference_utils.py:389-390 | deleting each newline with the white space after it keeps the value of every JSON text |
| `JsonText.CompactSimulates` | utilities/inference_utils.py:389 | on a text whose tokens are separated and single-line, scanning original and compacted text yields the same tokens |
| `JsonText.AcceptedIsSeparated` | utilities/inference_utils.py:389-390 | the JSON grammar never puts two scalars side by side and no token holds a newline |
| `JsonText.CompactRepairs` | utilities/inference_utils.py:389-390 | the converse fails: a text that is no JSON can become JSON by compaction |
| `JsonGrammar.AcceptsExactly` | utilities/inference_utils.py:390 | the recogniser accepts exactly the token sequences that writing out a JSON value gives |
| `JsonGrammar.NumberExactly` | utilities/inference_utils.py:390 | a number is a sign, a whole part without superfluous zeros, a fraction and an exponent |
| `InferenceReply.ParseReply` | utilities/inference_utils.py:374-406 | the reply of either protocol family as the code reads it: the gateway time-out, the failed header split, the missing lines and the fall-back to raw output; `ReplyStatus` says which replies are time-outs, the rows below what the others give |
| `InferenceReply.RoundTrip` | utilities/inference_utils.py:374-401 | parsing a printed reply returns every header with its last value, the status under the protocol name and the value of the body under `output`, exactly when nothing in the reply, body included, reads as a gateway time-out (`ReplyStatus.TimedOutExactly`) and no further line of the body starts with a brace |
| `ReplyStatus.TimedOutExactly` | utilities/inference_utils.py:374 | the search finds exactly the version, one digit, white space and 504 with no word character after it, anywhere in the text |
| `ReplyStatus.StatusDecides` | utilities/inference_utils.py:374-401 | a printed reply that names the protocol only at its start is a time-out exactly when its status is 504; with any other status it comes back in full, exactly when its body has no further line starting with a brace |
| `InferenceReply.JsonReplyExact` | utilities/inference_utils.py:385-406 | any other reply with a JSON type: nothing is read without a line that starts with a brace; raw output for text that is no JSON; a failure exactly when a header line holds no blank |
| `InferenceReply.GrpcReplyExact` | utilities/inference_utils.py:402-406 | over gRPC the value of the output, or the raw output exactly when it is no JSON |
| `InferenceReply.PlainReplyExact` | utilities/inference_utils.py:392-406 | outside JSON content a reply is parsed exactly when it is no time-out, has a third line from the end, and that line is no JSON or it and all lines before it hold blanks or nothing |
| `InferenceReply.HeadersExact` | utilities/inference_utils.py:396-399 | the header loop gets through exactly when every line is empty or, stripped, holds a blank |
| `ReplyLimits.MentionFails` | utilities/inference_utils.py:374-377 | a well-formed success whose body mentions a gateway time-out is reported as one |
| `ReplyLimits.BrokenLineFails` | utilities/inference_utils.py:385-401 | a well-formed reply whose body starts a line with an inner object is not given back |
| `ReplyLimits.MentionTimesOut` | utilities/inference_utils.py:374 | the status anywhere in the output, not followed by a word character, counts as a time-out |
| `ReplyLimits.PlainFails` | utilities/inference_utils.py:392-399 | a reply of another content type whose JSON line raises when it is read as a header |
| `InferenceReply.AddHeaders` | utilities/inference_utils.py:396-399 | the header loop: the first line that does not split ends it with the unpacking error |
| `InferenceReply.AssocLastWins` | utilities/inference_utils.py:396-399 | of several fields with one name the last one counts |
| `InferenceReply.SplitAfterName` | utilities/inference_utils.py:398 | a field name is split off at the first blank or colon and blank, whatever the value holds |
| `FixtureLifecycle.FixtureManager.GetFixtureValue` | tests/fixtures/vector_io.py:171-176 | requesting a fixture sets up its dependencies first and then itself, creating or looking up by phase, exactly as the specification says |
| `FixtureLifecycle.FixtureManager.Finalize` | tests/fixtures/vector_io.py:171-176 | finalizers run last in, first out; what they delete is told from the options themselves: after an upgrade everything but projects, otherwise and for projects everything unless the run is a pre-upgrade run not asked to delete, and never what raises first |
| `FixtureLifecycle.RequestKeeps` | tests/fixtures/vector_io.py:250-273 | what every request keeps: what is live is what was there plus what is active or was given up |
| `FixtureLifecycle.CloseFresh` | tests/conftest.py:110-117 | the finalizers of a creating run delete exactly what it holds but for those that raise, or nothing when it keeps its resources |
| `FixtureLifecycle.ClosePost` | tests/conftest.py:639-652 | the finalizers of a post-upgrade run delete exactly what it set up but for those that raise |
| `FixtureLifecycle.CloseClosed` | tests/fixtures/vector_io.py:266-271 | finalizers run in reverse, so prerequisites are live at every step exactly when they are in the end |
| `FixtureLifecycle.UpgradeSameRequests` | tests/fixtures/vector_io.py:168-205 | the same requests before and after an upgrade activate the same fixtures in the same order, everything is found, and what stays is what a finalizer raised on |
| `FixtureRuns.RequestExactly` | tests/fixtures/vector_io.py:168-176 | a request succeeds exactly when the fixture and all it depends on do their part, and reaches exactly the dependencies up to the first that fails, whatever was requested before |
| `FixtureRuns.FreshRunRestores` | utilities/infra.py:156-173 | on any graph, with any requests, set-ups that fail and finalizers that raise, a deleting run ends with the live set it began with, the projects it reaches that fail once created and what worked but has a finalizer that raises, hence restores exactly when there are none; prerequisites are live at every step exactly when what stays depends on what stays only |
| `FixtureRuns.RequestedProjectStays` | utilities/infra.py:156-173 | a requested project that fails once created is left behind |
| `FixtureRuns.StuckFixtureStays` | utilities/infra.py:169-173 | a requested fixture that works and whose finalizer raises is left behind |
| `FixtureRuns.NothingStays` | tests/fixtures/vector_io.py:168-176 | without such a project, and with finalizers that get to their deletion, every deleting run restores the cluster whatever else fails |
| `FixtureRuns.DeletingRunEnds` | tests/conftest.py:109-117 | without upgrade options, or before an upgrade with the delete option, a run ends with what it started with, the projects given up and what has a finalizer that raises |
| `FixtureRuns.KeepingRunEnds` | tests/conftest.py:109-117 | before an upgrade without the delete option everything that appeared stays, whether its fixture worked or not |
| `FixtureRuns.FindingRunEnds` | tests/fixtures/vector_io.py:171-176 | after an upgrade, the phase before it selected as well or not, resources and administrator namespaces found are deleted in any case, and projects unless the pre-upgrade option is set without the delete option |
| `FixtureRuns.UpgradeRestoresExactly` | tests/fixtures/vector_io.py:168-205 | whatever the two phases request, whatever fails and whatever finalizers raise, the cluster ends as it began exactly when the second run finds and gets to delete everything the first left; prerequisites are live at every step exactly when what stays depends on what stays only |
| `FixtureRuns.UpgradeRestores` | tests/fixtures/vector_io.py:168-205 | with no set-up failing by itself, the second phase finds everything and restores the cluster exactly when both phases request one closure, up to namespaces only the second asks for, and no finalizer raises on what the first left |
| `FixtureRuns.VectorIoUpgrade` | tests/fixtures/vector_io.py:149-555 | the same for the graph of the vector database fixtures, any requests before and after, and any finalizers that raise |
| `FixtureRuns.OneSidedRequest` | tests/fixtures/vector_io.py:168-173 | a secret asked for before and not after stays |
| `FixtureRuns.NamespaceFirst` | tests/conftest.py:639-644 | a second phase that asks for the namespace alone deletes it under the secret |
| `FixtureRuns.LookingRunExactly` | tests/conftest.py:639-644 | a run over existing resources creates nothing, and a request succeeds exactly when every resource of its closure is there and behaves |
| `FixtureRuns.BothPhasesFindNothing` | tests/fixtures/vector_io.py:168-174 | with both phases selected and nothing there, nothing is created and exactly the namespaces can be requested |
| `FixtureRuns.BothPhasesWitness` | tests/fixtures/vector_io.py:168-174 | the secret cannot be requested then, its namespace can |
| `DscScopes.DataScienceCluster.Execute` | utilities/data_science_cluster_utils.py:31-56 | any nesting of component scopes and registry sessions, with any failures, leaves the components as they were; every body sees exactly its lexical environment |
| `DscScopes.DataScienceCluster.UpdateComponents` | utilities/data_science_cluster_utils.py:31-56 | one scope: the minimal patch, the wait, the body, the restore, and the reconcile wait for components changed away from Managed |
| `DscScopes.DataScienceCluster.Differences` | utilities/data_science_cluster_utils.py:31-43 | the loop collects exactly the components whose state differs, with their original states; an unknown component is a key error |
| `DscScopes.DataScienceCluster.Reconciled` | utilities/data_science_cluster_utils.py:51-53 | the wait succeeds exactly when every component that was Managed becomes ready |
| `DscScopes.DataScienceCluster.RegistrySession` | tests/model_registry/conftest.py:108-171 | the two-level registry session restores the components at whichever point it fails; what it delivers meanwhile is `ScopeViews.RegistryDelivers` |
| `DscScopes.ResourceEditor.Update` | utilities/data_science_cluster_utils.py:46 | the editor patches what differs and remembers what was there |
| `DscScopes.RestoreUndoes` | utilities/data_science_cluster_utils.py:46-49 | putting the backup of a minimal patch back undoes the whole request |
| `DscScopes.PatchesSuffice` | utilities/data_science_cluster_utils.py:35-49 | replaying only the patches that were sent gives every body its lexical environment and cancels out |
| `DscScopes.PatchActsAsRequest` | utilities/data_science_cluster_utils.py:35-43 | the minimal patch has the effect of the full request and touches exactly the components that differ |
| `DscScopes.CrossedScopes` | utilities/data_science_cluster_utils.py:46-49 | two scopes closed first in, first out restore the cluster exactly when they changed no common field |
| `ScopeViews.RegistryDelivers` | tests/model_registry/conftest.py:110-171 | wherever a registry session fails: between its patches the component is Removed and keeps its namespace; what runs under the first patch, how it ends, and when nothing runs |
| `ScopeViews.SecondDelivers` | tests/model_registry/conftest.py:131-160 | under the second patch the component is Managed with the custom namespace, the programs inside run there and only there, and the patch changes no more than it must |
| `ScopeViews.RegistryBodySees` | tests/model_registry/conftest.py:131-160 | test code in a session that starts observes the component Managed in the custom namespace and everything else as before |
| `ScopeViews.ScopeDelivers` | utilities/data_science_cluster_utils.py:35-56 | a scope over components: an unknown one raises, a request for what is there changes nothing, otherwise the code inside runs under exactly the requested states, exactly when there is no wait or every component is mapped and ready; and when the scope raises |
| `ScopeViews.ScopeBodySees` | utilities/data_science_cluster_utils.py:44-49 | test code directly in such a scope observes each requested state and the rest as it was; it is reached exactly when no wait is asked for or every component gets ready |
| `ScopeViews.IdleScopeBodySees` | utilities/data_science_cluster_utils.py:55-56 | a scope that asks for what is there runs its code at once, whatever the wait would say |
| `ServingRuntime.UpdateContainers` | utilities/serving_runtime.py:201-255 | the whole merge on the heap: the containers read as the specified merge; the caller's override map, its lists and the shared port lists are unchanged, and no container uses a list of the caller's |
| `ServingRuntime.DeepCopy` | utilities/serving_runtime.py:203 | a map of its own with lists of its own that reads as the caller's |
| `ServingRuntime.PopAndOverride` | utilities/serving_runtime.py:244-247 | the override of a container's name is taken out of the copy and in force on the container; without one nothing changes |
| `ServingRuntime.MergeTemplate` | utilities/serving_runtime.py:205-247 | the loop over the template's containers, popping overrides as it goes |
| `ServingRuntime.MergeContainer` | utilities/serving_runtime.py:205-247 | one iteration changes its own container only |
| `ServingRuntime.EditEnv` | utilities/serving_runtime.py:208-220 | the environment loop, with the port rewrite that fails on a container without ports |
| `ServingRuntime.EditEntryPoint` | utilities/serving_runtime.py:228-242 | the single entry point: arguments without the model option, the last command word, and the shared port list handed out without being written to |
| `ServingRuntime.WithoutModelArgs` | utilities/serving_runtime.py:233-234 | the loop is the specification function, which `RuntimeEdits.WithoutModelSelects` shows to be a filter |
| `RuntimeEdits.WithoutModelSelects` | utilities/serving_runtime.py:233-234 | exactly the arguments that do not mention `--model` are kept, in their order |
| `ServingRuntime.Override` | utilities/serving_runtime.py:244-247 | every entry of an override replaces the field of its name, the others stay |
| `ServingRuntime.AddContainers` | utilities/serving_runtime.py:249-253 | each override left over becomes a new container of its name |
| `RuntimeMerge.MergedIsPlaced` | utilities/serving_runtime.py:205-247 | the single pass that pops overrides computes each container on its own, each override used once, the rest left in order |
| `RuntimeMerge.NamesExact` | utilities/serving_runtime.py:244-255 | the merged list names the template's containers in order and then the unmatched overrides in order, exactly when no override carries a different `name` |
| `RuntimeMerge.OverrideWins` | utilities/serving_runtime.py:244-253 | every override is in force on some container, over all edits; its container keeps the other edits |
| `RuntimeMerge.OverrideExactly` | utilities/serving_runtime.py:244-253 | an override replaces the fields it names and keeps the others; a new container has its name and the override, which may rename it |
| `RuntimeEdits.EditsIdempotent` | utilities/serving_runtime.py:208-242 | editing an edited container changes nothing more |
| `RuntimeEdits.EditsDeliver` | utilities/serving_runtime.py:208-242 | after the edits each switch, the image and the resources of a named container are as requested; with a single entry point the arguments are those that name no model, in order, only the last word of the command is another, and the ports are those of the protocol; an enabled gRPC switch replaces the first port only; nothing else has changed |
| `RuntimeEdits.EditsSucceedExactly` | utilities/serving_runtime.py:208-242 | the edits fail exactly when a port or a word is to be replaced where there is none, or arguments filtered that are no list |
| `Logging.LogManager.Setup` | utilities/logger.py:228-251 | the tree after setup, and one more empty filter on the root |
| `Logging.LogManager.Rewire` | utilities/logger.py:228-251 | every logger present and the basic one hand their records to the queue handler alone |
| `Logging.LogManager.Log` | utilities/logger.py:115-126 | one record: filtered on the root, then put on the queue once for every handler on its way up |
| `Logging.LogManager.PerformAll` | utilities/logger.py:149-251 | over any run of calls and records, how often each record is enqueued |
| `Logging.LogManager.AddHandler` | utilities/logger.py:149-165 | the patched call: queue handlers go in, any other is replaced by the queue handler unless one is there |
| `Logging.LogManager.RedirectExisting` | utilities/logger.py:230-234 | the loop over the registered loggers leaves the root alone |
| `Logging.RewiredExactly` | utilities/logger.py:149-251 | over every later run of calls handler lists hold queue handlers only, and at most the one of setup exactly when no other queue handler is added directly |
| `Logging.RunKeeps` | utilities/logger.py:158-163 | no run lets another handler in or a handler out |
| `Logging.Delivery` | utilities/logger.py:115-126 | over every run of calls and records: a record on the root whose message was logged there before is not enqueued; every other record at least once, and exactly once when up to then nobody added a handler to a later logger on its way, nor another queue handler to the logger present at setup where its way ends |
| `Logging.TreeDelivery` | utilities/logger.py:228-251 | the same unfiltered, over every run of calls; a logger present at setup is on its way alone, so only queue handlers added to it count |
| `Logging.FilteredExactly` | utilities/logger.py:121-126 | with any number of filters a message passes exactly when none has let it pass before |
| `Logging.AtMostOneExactly` | utilities/logger.py:158-163 | each list holds at most one handler exactly when whoever adds a queue handler adds the one the logger has first |
| `Logging.RepeatedWitness` | utilities/logger.py:240 | the second of two equal records on the root is lost, the same message on a child is not |
| `Logging.TwiceWitness` | utilities/logger.py:159-161 | a logger present at setup with a second queue handler: its next record is enqueued twice |
| `Logging.SecondHandlerWitness` | utilities/logger.py:159-161 | a second queue handler on a later logger makes two |
| `Logging.CountOnPath` | utilities/logger.py:158-163 | a record is put once for every handler on its way: at least once, and exactly once when the last list holds one and the others none |
| `Logging.DuplicateFilter.FilterAll` | utilities/logger.py:115-126 | over any sequence each message passes exactly at its first occurrence |
| `Polling.WaitForInferenceDeploymentReplicas` | utilities/infra.py:237-288 | for any number of deployments all waits share one budget; outcome and end are a function of what the cluster shows: success within the budget, failure at most one interval after it, success guaranteed by `Polling.ReplicasReady` |
| `Polling.ReplicasReady` | utilities/infra.py:237-288 | when the listing and every count needed are right from some time on, after which the budget leaves one interval and what the probes take, the wait succeeds, for any number of deployments |
| `Polling.ReplicasBounds` | utilities/infra.py:237-288 | success means that each deployment was there and its counts were seen in time |
| `Polling.VerifyNoFailedPods` | utilities/infra.py:753-815 | the pod wait, then the given time for readiness, as a function of what the cluster shows, with its bounds |
| `Polling.WithinGivenTimeExactly` | utilities/infra.py:753-767 | whatever the pods do, success is decided within the given time exactly when finding them took no time, or one probe is all there is time for and it starts within it |
| `Polling.WithinGivenTimeInstantly` | utilities/infra.py:753-768 | with probes that cost nothing, exactly when finding the pods took no longer than the last interval leaves |
| `Polling.OverrunWitness` | utilities/infra.py:753-767 | fifteen seconds given, success after thirty |
| `Polling.WaitForOne` | utilities/infra.py:270-286 | one deployment on the rest of the budget, as a function of what the cluster shows: on success it was there and its replicas were seen in time; `Polling.OneReady` is the converse |
| `Polling.OneReady` | utilities/infra.py:270-286 | one deployment that is there and whose counts are right in time succeeds, and when it ends |
| `Polling.CreateIsvcWaits` | utilities/inference_utils.py:733-811 | outcome and end are a function of what the cluster shows; success is reached within the budget, failure stops within the budget, the pod wait and one interval; success is guaranteed by `Polling.IsvcReady` |
| `Polling.IsvcReady` | utilities/inference_utils.py:733-811 | a service whose pods appear in time for their own wait, and for which everything is right one interval of the longest poll before the budget ends, probes included, is handed out |
| `Polling.SampleRest` | utilities/infra.py:282-284 | a wait on the rest of a budget is the wait up to its deadline, over at once when that has passed |
| `Polling.PollBounds` | utilities/infra.py:247-258 | a probe starts before the deadline only, and a wait expires at most one round after it |
| `Polling.PollReady` | utilities/infra.py:247-258 | a wait succeeds when one interval and one probe after the cluster is ready there is time left, and ends by then |
| `Polling.PollInstantly` | utilities/infra.py:247-258 | with probes that cost nothing it succeeds exactly when the cluster is ready at the last probe before the deadline |
| `Polling.Sample` | utilities/infra.py:247-258 | the sampler's watch starts with its iteration |
| `Polling.VectorStoreCreateAndPoll` | tests/llama_stack/utils.py:104-130 | the loop as a function of what the service reports: never an unfinished file, a time-out no earlier than the deadline and at most one interval later |
| `Polling.StoredWhenFinished` | tests/llama_stack/utils.py:119-130 | a file finished from some time on comes back when the calls made before that time end before the deadline |
| `Polling.StoredInstantly` | tests/llama_stack/utils.py:119-130 | with calls that cost nothing it comes back exactly when it is finished by the first call not made before the deadline |
| `Polling.NeverStored` | tests/llama_stack/utils.py:119-130 | a file that never finishes is timed out |
| `PodProbe.LookAtPods` | utilities/infra.py:774-815 | one look at the pods raises exactly when some pod failed, naming exactly the failed ones, and ends the wait exactly when there are pods and all are ready |
| `PodProbe.AllCounted` | utilities/infra.py:805-815 | counting ready pods finds all of them exactly when every pod is ready |
| `PodProbe.JudgedExactly` | utilities/infra.py:756-803 | which reasons and phases make a pod bad, by how its service is served, and which condition makes it ready |
| `Stability.WaitForCatalog` | tests/model_registry/utils.py:972-999 | returns at the first sample that ends enough identical payloads of positive size, at least two, whatever the argument |
| `Stability.StableLengthIsLongest` | tests/model_registry/utils.py:988-995 | the counter is the length of the longest such window |
| `Stability.WaitForPodsRunning` | utilities/general.py:446-470 | true at the first sample that ends enough clean ones; on time-out an error exactly when there was a sample and the last was not clean |
| `Stability.GetNotRunningPods` | utilities/general.py:416-434 | the entries of the pods before the first vanished one, two for a pod that waits in a bad phase |
| `Stability.CleanSampleExactly` | utilities/general.py:405-434 | a sample is clean exactly when every pod before the first vanished one is healthy, hence all of them when none vanished |
| `Stability.HealthyExactly` | utilities/general.py:405-434 | a pod is healthy when no container waits, it is not being deleted, and it runs or has succeeded |
| `Collection.Session.Classify` | conftest.py:274-297 | one pass is three independent order-preserving filters |
| `Collection.Session.RootModifyItems` | conftest.py:299-314 | the list left to run, the marks on it and the reported deselection; in a combined run post-upgrade items follow the pre-upgrade ones without duplicates |
| `Collection.FromKeys` | conftest.py:301-302 | keeping first occurrences of two duplicate-free lists appends the second without the members of the first |
| `Collection.Session.AddDefaultTier2Marker` | conftest.py:317-325 | marks exactly the items of the listed paths without an excluding marker |
| `Collection.Session.RegistryModifyItems` | tests/model_registry/conftest.py:519-550 | keeps and reports exactly by the four parameter rules |
| `Collection.SelectedMembers` | conftest.py:299-308 | the list left to run holds exactly the items kept one by one, none twice |
| `Collection.MarkingIdempotent` | conftest.py:317-325 | marking twice is marking once |
| `Collection.RootSplits` | conftest.py:310-313 | left and deselected items together are the collected ones, each exactly once |
| `Collection.HooksCommute` | tests/model_registry/conftest.py:519-550 | the two hooks in either order leave the same list in the same order with the same marks; the two reports are disjoint and cover exactly the removed items |
| `CollectionRules.RunsExactly` | conftest.py:247-308 | the root hook test by test, from its keywords, the options and the deployment modes given |
| `CollectionRules.CombinedOrder` | conftest.py:301-302 | in a combined run every pre-upgrade test comes first, each group in the order of collection |
| `CollectionRules.MarkedExactly` | conftest.py:317-325 | the default mark goes exactly to listed tests under the three paths without one of the six marks, and nothing else changes |
| `CollectionRules.StaysExactly` | tests/model_registry/conftest.py:519-550 | a test stays when it has no parameters or fits all four rules |
| `RegistryFamily.GetMetadataResources` | tests/model_registry/utils.py:711-759 | for every count and known back end a coherent family, else the key error of the port table |
| `RegistryFamily.FamilyCoherent` | tests/model_registry/utils.py:623-660 | names are distinct, claims and config maps exist in the family, mounts name declared volumes, each service and each deployment selects exactly its own pods, on the right port |
| `RegistryFamily.NamesDistinct` | tests/model_registry/utils.py:603-608 | two members of a family have one name exactly when they are the same |
| `Texts.DecimalRoundTrip` | tests/model_registry/utils.py:534-535 | the digits of a number determine it |
| `RegistryFamily.SecretsExistExactly` | tests/model_registry/utils.py:634-639 | the secrets that deployments read are in the family exactly when its base name is the fixed one or it is empty |
| `RegistryFamily.OtherBaseWitness` | tests/model_registry/utils.py:634-639 | a family of another base name whose deployment reads a secret that is not there |
| `RegistryFamily.RegistriesReachDatabases` | tests/model_registry/utils.py:681-692 | registry i reaches database i alone, on its port; the passwords exist exactly when there are no more registries than databases |
| `RegistryFamily.GetServiceObjects` | tests/model_registry/utils.py:517-555 | the services, or the key error even for an empty family |
| `RegistryFamily.GetDeploymentObjects` | tests/model_registry/utils.py:623-660 | the deployments with selector and template |
| `RegistryFamily.DeploymentExactly` | tests/model_registry/utils.py:81-294 | for each back end what a deployment selects, its port and arguments, and which claim or config map its data directories are |
| `RegistryFamily.GetRegistryDatabases` | tests/model_registry/utils.py:672-708 | the database part of each registry |
| `RegistryFamily.TlsTemplate` | tests/model_registry/model_registry/rest_api/conftest.py:301-316 | the pod template patched in, the assertion for a missing container and the unset path for other back ends; mounts that named declared volumes still do |
| `RegistryFamily.CertFilesMounted` | tests/model_registry/utils.py:407-455 | every certificate file named to the server lies under one of the mounts added for it |
| `RegistryFamily.MySqlOptions` | tests/model_registry/utils.py:407-435 | authority, certificate and key options each name a file where its own config map or secret is mounted |
| `RegistryFamily.PostgresOptions` | tests/model_registry/utils.py:407-459 | the same over PostgreSQL, where the authority has a secret too and each option follows its flag |
| `RegistryFamily.DefaultMySqlFiles` | tests/model_registry/model_registry/rest_api/conftest.py:296-299 | the certificate files without a mount path given |
| `RegistryFamily.DefaultPostgresFiles` | tests/model_registry/model_registry/rest_api/conftest.py:296-299 | the same over PostgreSQL |
| `RegistryFamily.TlsMountsDeclared` | tests/model_registry/utils.py:344-459 | after the change to TLS every mount still names a declared volume, whatever names are given |
| `RegistryFamily.TlsVolumesDistinct` | tests/model_registry/utils.py:361-381 | volume names stay distinct exactly when the CA config map is not named like another volume |
| `RegistryFamily.TlsPathsDistinct` | tests/model_registry/utils.py:407-455 | no two mounts share a path, wherever the certificates go |
| `RegistryFamily.Cluster.DbResources` | tests/model_registry/conftest.py:370-437 | the database fixture by phase: creating in order up to the first that exists already, with what came before undone or left by the teardown setting; finding in order or naming the first missing; deleting |
| `RegistryFamily.Cluster.UpgradeCycle` | tests/model_registry/conftest.py:381-411 | an upgrade cycle restores the cluster exactly for one database that the operator does not provide; with more, the instances after the first stay; with none, or the operator's own, the look-up fails |
| `Datasets.LoadDocumentQa` | tests/llama_stack/datasets.py:55-77 | the loading loop, ended by the first line that is no JSON or lacks a field asked for |
| `Datasets.LoadsExactly` | tests/llama_stack/datasets.py:60-76 | loading succeeds exactly when the file is JSON throughout and every record asked for is complete; what it returns fits the query |
| `Datasets.LoadsInOrder` | tests/llama_stack/datasets.py:60-76 | the records are the lines asked for, field by field, in the order of the file |
| `Datasets.FirstFailure` | tests/llama_stack/datasets.py:60-76 | the first line that cannot be used decides the error: that it is no JSON, or its first missing field |
| `Datasets.NarrowingIsFiltering` | tests/llama_stack/datasets.py:65-69 | a narrower query returns the fitting part of a wider one |
| `Datasets.OwnDocumentsExactly` | tests/llama_stack/datasets.py:134-156 | no record of another document is returned, exactly when the data set has documents or ids are given |
| `Datasets.ByIdsIsFilter` | tests/llama_stack/datasets.py:134-138 | asking for ids is filtering the full result by them |
| `Datasets.SubsetExactly` | tests/llama_stack/datasets.py:165-177 | a subset's questions are those of the whole about its documents, exactly when it was given at least one id |
| `Datasets.LoadDocuments` | tests/llama_stack/datasets.py:80-122 | the manifest loader: the unknown ids, an entry outside the directory, or exactly the documents wanted |
| `Datasets.SearchedRecords` | tests/llama_stack/vector_io/test_vector_stores.py:149-164 | loading once per mode puts every question exactly as often as it is on file; with FAISS exactly those of the vector mode |
| `Datasets.EachOnce` | tests/llama_stack/vector_io/test_vector_stores.py:149-158 | loading once for each mode that occurs gives every record exactly once |
| `JiraVersions.SearchExact` | utilities/jira.py:66-70 | the search finds the leftmost release in a name at full length, and finds one whenever there is one |
| `JiraVersions.OrderIsPadded` | utilities/jira.py:85-86 | versions compared without trailing zeros are compared padded with zeros |
| `JiraVersions.LessLater` | utilities/jira.py:86 | what comes after a version that is not later comes after this one |
| `JiraVersions.ClosedExactly` | utilities/jira.py:62-92 | the answer is closed exactly when some fix version names a release not after the operator's |
| `JiraVersions.ClosedStays` | utilities/jira.py:85-92 | closed stays closed for any operator of no earlier version and for any added fix versions |
| `JiraRules.NumbersRead` | utilities/jira.py:66-70 | the release in a name is read number by number, whatever text stands around it that does not go on with the number |
| `JiraRules.OrderExactly` | utilities/jira.py:85-86 | versions compare by epoch, by release padded with zeros, then by what follows the release |
| `JiraRules.AnswerExactly` | utilities/jira.py:72-92 | for a closed status: which of the three errors, or open exactly when every release named comes after the operator's |
| `JiraRules.OperatorExactly` | utilities/jira.py:76-83 | the operator's version is that of the first service version named after it |
| `JiraRules.OpenExactly` | utilities/jira.py:95-115 | a status is open unless it is one of three, in any case of letters |
| `JiraVersions.IssueCache.IsIssueOpen` | utilities/jira.py:95-115 | the first verdict is kept; an unreachable tracker counts as open |
| `JiraVersions.IssueCache.IsJiraOpen` | utilities/jira.py:62-92 | with the status cached, the answer or error is determined by the cached fields and the operator alone |
| `JiraVersions.IssueCache.Session` | utilities/jira.py:95-115 | over any run of calls, with the tracker changing or failing in between, a bug answered closed stays closed for operators of no earlier version |

## Left out

Libraries, as far as they are relied on:

- `shlex.split` is its POSIX mode without comment characters, on any characters; `string.Template` is modelled for ASCII names.
- JSON values are represented by their token sequences, so numbers keep their spelling; `json.loads` adds NaN and the infinities.
- `str.lower` and the digit and word classes of the patterns cover ASCII.
- `TimeoutSampler` probes before its deadline only and sleeps between probes; swallowed exceptions are missed probes.
- `ResourceEditor` backs up what a patch changes and puts it back; conflicts with other clients are not modelled.
- pytest gives each fixture one value per scope, sets dependencies up first and finalizes in reverse; scopes other than one common scope are not modelled.
- Versions carry epoch, release and an ordered stage; reading pre-, post- and development stages out of an operator's version text is not modelled, nor are local parts.

Parts of the modelled files:

- FixtureRuns.FreshRunRestores: a resource whose own wait on entering its `with` fails counts as not created, and a finalizer that raises after deleting as one that deletes; deleting a namespace does not delete what it holds.
- InferenceCommand.ArgumentVector: the forwarding itself, the retries around it and the reading of error output are left out.
- ReplyStatus.StatusDecides: of a reply once the call returned it; that the call itself is repeated on a status of 500 is not modelled.
- ServingRuntime.DeepCopy: a list the caller uses twice is copied twice; nothing in the merge tells the difference.
- ServingRuntime.UpdateContainers: metadata annotations, model formats and volumes are plain field copies and left out; an override's keys are a map, so their insertion order within one container is not modelled.
- RuntimeMerge.NamesExact: for a template with named, distinctly named containers; other templates are covered by `ServingRuntime.UpdateContainers` alone.
- Polling.CreateIsvcWaits: does not model the re-creation of a second ModelMesh service; what the two readings of the model status say is one parameter.
- Polling.VerifyNoFailedPods: the verdict of a look at the pods is a parameter here and computed in `PodProbe.LookAtPods`.
- Logging.LogManager.Setup: levels, formatters, the listener's outputs and placeholder entries of the logger dictionary are left out.
- Stability.WaitForCatalog: a time-out is the end of the samples; which error the sampler raises then is not modelled.
- Collection.Session.RegistryModifyItems: parameters that are not the dictionaries or texts the hook expects raise in the code and are not modelled.
- Collection.HooksCommute: for a list without repeated items, as pytest collects it.
- RegistryFamily.GetMetadataResources: probes, images, labels of the resources themselves, annotations and namespaces are constants or plain copies and left out.
- RegistryFamily.Cluster.DbResources: a deployment that never becomes ready unwinds like a conflict and is not modelled; the tests in between are taken to leave the resources alone.
- Datasets.LoadDocumentQa: fields other than texts, and characters of the path, are not modelled.
- Datasets.LoadDocuments: whether a file name resolves inside the data set directory is a parameter of the entry.
- JiraVersions.IssueCache.IsJiraOpen: the connection's own cache and the log lines are left out.

Not modelled at all:

- Kubernetes, HTTP, gRPC, Jira and SQL clients, certificates, tokens, request signing and the test database.
- `utilities/resources`, `utilities/kueue_utils.py`, `utilities/manifests`, generated protocol code and constants tables: field copying or data.
- `extract_retrieved_contexts` and `mean_ragas_score` of the Llama Stack helpers: a de-duplicating loop and a mean, easy members.
- `get_dsc_ready_condition` and `wait_for_dsc_reconciliation`: reads of one status field.
- The bodies of the tests and the command-line options.
