# Verification of the cloudflared Gateway controller

The controller watches Gateways and routes of the Kubernetes Gateway API, compiles the attached routes into the
ordered rule list of a Cloudflare tunnel, keeps CNAME records for the route hostnames, and manages the tunnel, its
Secret, its token and the cloudflared Deployment. This project models that behaviour in Dafny and proves what the
controller is for: DNS passes that never harm foreign records and converge after any crash, a rule list in which
first match means best match, attachment and backend resolution that mean what the Gateway API says, policy layering
in which no rule's settings object reaches another rule, and a lifecycle in which nothing outlives the finalizer and no
DNS record leads to a tunnel without rules.

Check everything with `dafny verify dfyconfig.toml` (with `--resource-limit 2000000 --verification-time-limit 0`).

## Files

| file | contents |
|---|---|
| `text.dfy`, `seqs.dfy` | Go string operations and sequence helpers |
| `gateway_api.dfy` | Gateway API objects; origin settings and their field-by-field layering |
| `dns_store.dfy` | name normalisation, one zone's store, the batch endpoint, chunking |
| `dns_plan.dfy` | the ownership-restricted diff of one zone and what applying it achieves |
| `dns_reconcile.dfy` | zone matching, passes over all zones as relations, runs of passes by many Gateways |
| `dns_passes.dfy` | the passes as methods of a class, every API call able to fail before or after its effect |
| `regexp.dfy` | semantics and parsing of the regular expressions the controller emits |
| `precedence.dfy` | match precedence, the stable sort, first match against best match |
| `attachment.dfy` | hostname intersection, listener selection, effective hostnames |
| `backends.dfy` | ReferenceGrants, memoised and direct resolution, XBackend translation, ResolvedRefs |
| `ingress.dfy` | path compilation, fan-out, the assembled list |
| `grpc.dfy` | gRPC method patterns, and what they mean for calls and beyond |
| `compilation.dfy` | what a route rule asks for, conditions included, and when its rules serve exactly that |
| `shadowing.dfy` | which rules can keep a narrower one from answering, exactly |
| `ranking.dfy` | how unenforced conditions still rank HTTPRoute matches |
| `serving.dfy` | a request from the listener to the route rule that answers it |
| `unsupported.dfy` | which routes status reports as served without all their conditions |
| `publishing.dfy` | which names of routes and listeners end up as DNS records |
| `watch.dfy` | one Gateway's output, settings included, as a function of the cluster; completeness of the Service watch |
| `policy.dfy` | oldest-wins selection, Namespaces and acceptance |
| `origin.dfy`, `origin_rules.dfy` | origin settings as heap objects: merging, caching, layering; what built rules start with |
| `backend_tls.dfy` | BackendTLSPolicy overrides and whose configuration a rule ends up with |
| `push.dfy` | the pipelines end to end and the pushed list of rules with settings |
| `status.dfy` | condition, ancestor and parent lists |
| `lifecycle.dfy`, `lifecycle_passes.dfy` | finalizer, Secret, tunnel, token, Deployment and DNS as a state machine, and the code that performs its steps |

## Reading the model

Code that updates things step by step is a method proved against a specification function or relation; the lemmas then
say what that specification means. Lemmas whose row begins with "said on" state it on the objects and fields of the
source alone, without the functions in between. Objects the controller updates in place are classes (`Cloudflare`, `OriginRequest`,
`Status`, `Reconciler`), the rule slice is an array.

Assumptions about the world outside the source:

- A `char` is one byte of a Go string. Case mapping and white space are ASCII; case folding beyond ASCII is not modelled.
- A DNS batch is transactional: it is carried out whole or refused whole, and it is refused when it deletes or updates an
  unknown record, would give two CNAMEs the same name, or writes a CNAME where a record of another type stands; such
  records are a set of blocked names that the listing, being of CNAMEs, does not show. Any call may fail before or after
  its effect. Record IDs are positive numbers, and 0 stands for the unset ID of a desired record. Zone IDs are distinct.
- cloudflared answers a request by the first rule that matches it. An empty hostname or path matches everything, a
  wildcard hostname matches by suffix, and a path pattern is an unanchored regular expression over the path. Patterns
  outside the modelled fragment, such as user-written ones, are an arbitrary predicate `rx`.
- Which methods, headers and query parameters a request has is an arbitrary predicate `meets` on the conditions of a
  match; of it only that a request meets conditions that demand nothing (`Admissible`). A gRPC call is a request for
  "/service/method", both parts non-empty, on one line and without slash.
- Gateway names are unique per account and passes over one Gateway are serial, since tunnels are found by Gateway name
  (`internal/controller/reconciler.go:149`). Between passes users create, annotate and delete the Gateway, other
  controllers add and remove their own finalizers, and other Gateways run DNS passes, which never write records with a
  UID that a Gateway of this name ever has. A user may also delete the Gateway at two points inside a pass. `Lifecycle`
  assumes that nobody else writes the Secret, the tunnel or the Deployment; the last three lemmas of that file say what
  happens otherwise.
- A tunnel token is the record (account, tunnel ID, secret) it encodes; random secrets are inputs of 32 bytes.
- Writing into a Secret without a data map panics (`internal/controller/secret.go:81`); the model counts that as a failed
  call.

Where the code does not do what its documentation suggests, the code is modelled as it is and the difference is a lemma:

- Normalising a DNS name strips one dot, so `"a.."` changes on every pass: `NormalizeNotIdempotent`, with the exact
  condition in `NormalizeStableIff` and the consequence for DNS in `UnstableNamesCollide` and `CreatingTwiceIsRefused`.
- A label that a selector requires to be empty may be missing: `EmptyValueAcceptsMissingLabel`, `SelectorAgreesIff`.
- A policy reported as conflicted can still be applied to another target, and acceptance ignores the reference's group:
  `ConflictedMayStillApply`, `ForeignGroupAcceptedNotApplied`. `AcceptedIsApplied`, `ConflictedIsApplied` and
  `AcceptedIffAppliedEverywhere` say for every policy exactly on which targets status and effect agree.
- Cloudflare matches host and path only, so method, header and query conditions are not enforced: a match on a header
  alone serves every request (`HeaderOnlyServesAll`). For HTTPRoutes the rule is flagged and status reports it; for the
  headers of a GRPCRoute nothing is flagged or reported. `HttpMatchIsExactIff`, `GrpcMatchIsExactIff`,
  `RouteIsExactIff` and `AttachedRuleIsExactIff` say exactly when a rule serves no more than it is asked for.
- That report goes by kind and name, so a route is also reported for a namesake in another Namespace: `ReportIsOwnIff`.
- The patterns of gRPC matches on a service alone or a method alone also serve paths that are no calls:
  `NonCallsServed`, with the exact condition in `OnlyCallsIff`. On calls they are exact: `CallCompilation`.
- A record of another type at a wanted name, which the plan cannot see, has the whole batch refused, so that no other
  hostname of the zone is published either: `BlockedStopsZone`, with the exact condition in `PlanSettles`.
- Rules ranked as regular expressions and the unsorted TLS and TCP bands can shadow more specific rules. `ShadowingIff`
  says exactly when a strictly narrower HTTP or gRPC rule comes first, `RegexPosition` does so for user-written patterns,
  and `UnsortedAnswersIff` says exactly which TLS and TCP rules answer among the requests the sorted band leaves to them.
  `GrpcIsShadowed`, `OlderMethodRuleShadows` and `TlsBandShadows` are instances.
- Routes of equal age are compared by Namespace before name, which is not the alphabetical order by "{namespace}/{name}"
  when one Namespace continues another with a dash: `DashedNamespaceComesLater`, with the exact condition in
  `NamespaceFirstIff`.
- The last TLSRoute to name a hostname decides the BackendTLSPolicy for all of them: `LaterClaimTakesHostname`, with the
  exact condition in `LastClaimWins`.
- Policies find their targets by kind and name without the Namespace, so a policy also governs a route of the same kind
  and name in another Namespace attached to the Gateway, and counts as accepted for it: `OtherNamespaceGetsPolicy`, with
  the exact conditions in `WinnerIsOwnIff`, `AccessIsOwnIff` and `EffectiveIsOwnIff`.
- A Secret lost or replaced behind a standing tunnel goes unnoticed: `DeletedSecretDisagrees`,
  `LostRegenerationDisagrees`, with the exact condition in `AgreementIff`.

## Model

| member | source | states |
|---|---|---|
| `DnsStore.NormalizeNotIdempotent` | `internal/cloudflare/types.go:51-56` | a name whose second normalisation differs from its first |
| `DnsStore.NormalizeStableIff` | `internal/cloudflare/types.go:51-56` | for every name, one normalisation is enough exactly when nothing strippable is left behind the first dropped dot |
| `DnsStore.TargetStable` | `internal/controller/dns.go:151` | the CNAME target is in canonical form for every tunnel ID, so read-back content compares equal |
| `DnsStore.NormalizeMeans` | `internal/cloudflare/types.go:51-56` | surrounding space, letter case and one trailing dot make no difference, and nothing else is changed |
| `DnsStore.TargetMeans` | `internal/controller/dns.go:151` | the target of an ordinary tunnel ID is that ID under cfargotunnel.com |
| `DnsStore.ApplyConcat` | `internal/cloudflare/client.go:176-189` | two batches one after the other do what their concatenation does, refusals included |
| `DnsStore.ApplyKeepsWellFormed` | `internal/cloudflare/client.go:179-189` | unique IDs, at most one CNAME per name and none beside a record of another type are inductive over every accepted batch |
| `DnsStore.AcceptedAvoidsBlocked` | `internal/cloudflare/client.go:183-187` | an accepted batch writes no name at which a record of another type stands, and leaves those records alone |
| `DnsStore.KeptOrWritten` | `internal/cloudflare/client.go:183-187` | after a batch every record was there before or was written by the batch |
| `DnsStore.ChunkDnsChanges` | `internal/cloudflare/client.go:194-228` | for a positive size the chunks contain exactly the planned deletes, updates and creates in that order, none empty or over size, all but the last full; otherwise one chunk |
| `DnsStore.FlushIfFull` | `internal/cloudflare/client.go:201-207` | a full pending chunk moves to the output and no mutation is lost or reordered |
| `DnsStore.ChunkingUnique` | `internal/cloudflare/client.go:191-228` | the chunking requirements determine the chunks: no other split satisfies them |
| `DnsStore.ChunksApplyAsWhole` | `internal/cloudflare/client.go:183-187` | applying the chunks one by one gives the store, or the refusal, of applying the whole change set |
| `DnsPlan.Chosen` | `internal/controller/dns.go:95-103` | the record a name is matched against has that name, exists exactly when some record has it, and is an owned one whenever there is one |
| `DnsPlan.IndexByName` | `internal/controller/dns.go:97-103` | the index maps every present name to its chosen record and nothing else |
| `DnsPlan.PlanDnsChanges` | `internal/controller/dns.go:94-130` | the loops compute the plan and the conflicts the lemmas below reason about |
| `DnsPlan.OpsSpareForeign` | `internal/controller/dns.go:89-94` | mutations that stay within ownership leave every record of another owner exactly as it was |
| `DnsPlan.PlanSparesForeign` | `internal/controller/dns.go:94-130` | after any prefix of a plan the zone is well formed and no record of another owner or another type was created, changed or deleted |
| `DnsPlan.PlanWrites` | `internal/controller/dns.go:105-120` | what a plan creates or updates has the content of desired records |
| `DnsPlan.PlanSettles` | `internal/controller/dns.go:94-130` | a plan from a fresh listing is refused exactly when a record of another type stands at a desired name; carried out in full it leaves each desired record in place or its name with another owner, and nothing else owned |
| `DnsPlan.SettledIsFixpoint` | `internal/controller/dns.go:105-129` | in a settled zone the next plan is empty and the reported conflicts are exactly the desired names another owner holds |
| `DnsReconcile.OwnerCommentInjective` | `internal/controller/dns.go:30-33` | different Gateway UIDs have different, non-empty ownership markers |
| `DnsReconcile.FindZone` | `internal/controller/dns.go:73-87` | the loop finds the zone MatchZone specifies |
| `DnsReconcile.MatchZoneIsLongest` | `internal/controller/dns.go:70-87` | the zone found covers the hostname, every other covering zone is a parent of it, and none is found only if none covers it |
| `DnsReconcile.ZoneFoundIff` | `internal/controller/dns.go:70-87` | said on the names alone: a zone is found exactly when some zone has the host's name or a name the host ends in behind a dot; it is the first such zone with the longest name |
| `DnsReconcile.GroupByZone` | `internal/controller/dns.go:153-177` | every zone gets the records of the concrete hostnames it is the longest-suffix zone of, in order |
| `DnsReconcile.CollectRouteHostnames` | `internal/controller/dns.go:45-68` | the names of all attached HTTP, gRPC and TLS routes, normalised, in order of first appearance |
| `DnsReconcile.AddHostnames` | `internal/controller/dns.go:48-57` | one route adds its normalised, non-empty, unseen names and keeps the set of seen names in step with the list |
| `DnsReconcile.CollectedMeaning` | `internal/controller/dns.go:42-68` | a name is collected exactly when it is some route hostname's non-empty normal form, never twice; the list is canonical exactly when one normalisation was enough for every name |
| `DnsReconcile.DesiredSound` | `internal/controller/dns.go:154-177` | canonical hostnames give desired records that are owned, canonical and name-distinct |
| `DnsReconcile.ZoneSyncIsSafe` | `internal/controller/dns.go:180-209` | whatever fails in one zone, it stays well formed and foreign records stay untouched |
| `DnsReconcile.ZoneSyncSettles` | `internal/controller/dns.go:180-209` | one zone's turn without an API failure or refusal settles the zone, which no record of another type blocks then, and reports a conflict exactly when another owner holds a desired name |
| `DnsReconcile.BlockedStopsZone` | `internal/cloudflare/client.go:183-187` | when a record of another type stands at a desired name and the plan fits into one batch, the turn fails and nothing in the zone changes |
| `DnsReconcile.PassIsSafe` | `internal/controller/dns.go:137-211` | whatever fails anywhere, a pass keeps all zones well formed and touches no record of another owner |
| `DnsReconcile.PassWrites` | `internal/controller/dns.go:137-211` | whatever fails, every record in any zone was there before the pass or points at its target |
| `DnsReconcile.CleanPassConverges` | `internal/controller/dns.go:139-211` | a pass without an API failure or refusal settles every zone, and no wanted name was blocked then; it reports an error exactly when another owner holds a wanted name |
| `DnsReconcile.HostnameServed` | `internal/controller/dns.go:132-137` | in a converged account each concrete hostname has exactly one record in its longest-suffix zone, owned, proxied and pointing at the tunnel, or another owner holds the name |
| `DnsReconcile.RouteHostnamePublished` | `internal/controller/dns.go:132-211` | for any lists of route hostnames, each normalising in one step: after a clean pass on what is collected from them, every concrete one that has a zone is published there or held by another owner |
| `DnsReconcile.OwnedIsWanted` | `internal/controller/dns.go:132-137` | in a converged account every owned record serves a wanted hostname whose longest-suffix zone it lies in |
| `DnsReconcile.ConvergedPlansNothing` | `internal/controller/dns.go:190-199` | convergence is a fixpoint: the next plan of every zone is empty |
| `DnsReconcile.RunIsSafe` | `internal/controller/dns.go:132-256` | over any interleaving of reconciles and teardowns by any Gateways under any failures, zones stay well formed and the records of a Gateway that made no pass are exactly what they were |
| `DnsReconcile.CrashRecovery` | `internal/controller/dns.go:137-211` | after any such run, one pass without an API failure converges |
| `DnsReconcile.TeardownLeavesNone` | `internal/controller/dns.go:213-256` | a teardown without error leaves no record of its Gateway in any zone |
| `DnsReconcile.UnstableNamesCollide` | `internal/controller/dns.go:49-55` | two names, beyond what API validation admits, that only a second normalisation identifies become two equal desired records |
| `DnsReconcile.CreatingTwiceIsRefused` | `internal/cloudflare/client.go:183-187` | creating the same record twice in one batch is refused in every store |
| `DnsPasses.Cloudflare.ListDnsRecords` | `internal/cloudflare/client.go:150-174` | every record of the zone once, normalised, in some order |
| `DnsPasses.Cloudflare.ApplyDnsChanges` | `internal/cloudflare/client.go:179-189` | the mutations carried out are a prefix of the change set cut at a batch boundary, all of them when no error is returned; other zones are untouched |
| `DnsPasses.Cloudflare.SyncZone` | `internal/controller/dns.go:180-209` | the body of the zone loop is one ZoneSync step, and when no call fails it fails exactly if a record of another type blocks a desired name |
| `DnsPasses.Cloudflare.ReconcileDns` | `internal/controller/dns.go:139-211` | a reconcile is one pass of the relation, or nothing when DNS is not managed for the Gateway; when no call fails, something fails exactly if a record of another type blocks a wanted name in some zone |
| `DnsPasses.Cloudflare.ClearZone` | `internal/controller/dns.go:228-254` | deleting what is owned is a ZoneSync step that wants nothing |
| `DnsPasses.Cloudflare.TeardownDns` | `internal/controller/dns.go:215-256` | a teardown is a pass without hostnames, and its error is the API's |
| `DnsPasses.DnsEnabledIff` | `internal/controller/dns.go:35-40` | DNS is off exactly for the annotation "false" in any letter case, and on without an annotation |
| `Regexp.QuotedParses` | `internal/cloudflare/ingress.go:389-400` | a quoted string parses to its literals whatever follows: every metacharacter is neutralised |
| `Regexp.ExactPattern` | `internal/cloudflare/ingress.go:389-392` | the Exact pattern matches that literal and nothing else, for every literal and subject |
| `Regexp.PrefixPattern` | `internal/cloudflare/ingress.go:370-402` | the prefix pattern matches the prefix and the prefix followed by "/" and anything on the same line, never "/foobar" for "/foo" |
| `Regexp.StartPattern` | `internal/cloudflare/ingress.go:494-495` | an anchored literal without end anchor matches exactly what starts with it |
| `Regexp.EndPattern` | `internal/cloudflare/ingress.go:496-497` | "^.*", a literal and "$" match exactly what ends with the literal on one line |
| `Precedence.FirstTieBreakerDecides` | `internal/cloudflare/precedence.go:16-65` | the comparison is decided by the first of the eleven listed tie-breakers that tells the rules apart, and by no other |
| `Text.LessMeans` | `internal/cloudflare/precedence.go:55-60` | a name precedes another exactly when it is a proper prefix or smaller at the first difference |
| `Precedence.NamespaceFirstIff` | `internal/cloudflare/precedence.go:17-22` | comparing Namespaces before names agrees with the alphabetical order by "{namespace}/{name}" exactly unless one Namespace continues the other with a character below the slash |
| `Precedence.SameNamespaceOrder` | `internal/cloudflare/precedence.go:55-60` | within one Namespace the two orders agree |
| `Precedence.DashedNamespaceComesLater` | `internal/cloudflare/precedence.go:55-60` | routes in Namespaces "a" and "a-b" on which the two orders differ |
| `Precedence.Trichotomy` | `internal/cloudflare/precedence.go:22-65` | asymmetric; neither precedes the other exactly when all eleven keys agree |
| `Precedence.Transitive` | `internal/cloudflare/precedence.go:22-65` | transitive on all rules |
| `Precedence.UnbeatenTransitive` | `internal/cloudflare/precedence.go:22-65` | not being beaten is transitive: the order is a strict weak one |
| `Precedence.SortFacts` | `internal/cloudflare/precedence.go:5-14` | the sorted list is a permutation in which no later rule precedes an earlier one |
| `Precedence.SortIsStable` | `internal/cloudflare/precedence.go:8-9` | rules that tie keep their build order |
| `Precedence.StableSortUnique` | `internal/cloudflare/precedence.go:10-14` | sorted and stable determines the list, so every stable sort returns this one |
| `Precedence.SortByPrecedence` | `internal/cloudflare/precedence.go:10-14` | the array is sorted in place into exactly that list |
| `Precedence.InsertAt` | `internal/cloudflare/precedence.go:10-14` | one step moves a rule left past everything it beats and changes nothing else |
| `Precedence.FirstMatchIsBestMatch` | `internal/cloudflare/precedence.go:5-14` | for every request, first match over the sorted rules is best match over the rules as built |
| `Precedence.BestMatchMeaning` | `internal/cloudflare/precedence.go:5-9` | the best match matches, no matching rule beats it, and it beats every matching rule built earlier |
| `Precedence.FirstMatchConcat` | `internal/controller/reconciler.go:258-262` | a band decides whenever it matches, otherwise the bands after it do |
| `Ingress.ExtractMatches` | `internal/cloudflare/ingress.go:348-368` | one built match per route match, a match-all when there is none |
| `Ingress.ExtractGrpcMatches` | `internal/cloudflare/ingress.go:442-462` | one built match per gRPC match from its method alone, a match-all when there is none |
| `Ingress.FanOutRules` | `internal/cloudflare/ingress.go:184-226` | one rule per hostname and match, hostname-major, "" standing for no hostname |
| `Ingress.BuildRoute` | `internal/cloudflare/ingress.go:52-75` | the rules of one route, rule by rule |
| `Ingress.BuildIngressRules` | `internal/cloudflare/ingress.go:45-179` | the rules of all routes in order, for each of the four route kinds |
| `Ingress.AssembleIngress` | `internal/controller/reconciler.go:239-262` | sorted HTTP and gRPC band, then TLS, then TCP, then the catch-all |
| `Ingress.PatternDenotes` | `internal/cloudflare/ingress.go:374-408` | each emitted literal pattern serves exactly its set of paths |
| `Ingress.PathCompilation` | `internal/cloudflare/ingress.go:374-408` | for every match that is not a regular expression the emitted rule serves exactly the requested paths, with the specificity of that set |
| `Ingress.HostSubsetOrder` | `internal/cloudflare/ingress.go:235-246` | a hostname with strictly fewer hosts has strictly higher hostname specificity |
| `Ingress.PathSubsetOrder` | `internal/cloudflare/builtrule.go:5-17` | a literal path set strictly inside another ranks strictly higher |
| `Ingress.NarrowerIsMorePrecedent` | `internal/cloudflare/precedence.go:16-40` | a literal rule that serves strictly fewer requests takes precedence |
| `Ingress.FirstMatchIsTotal` | `internal/controller/reconciler.go:239-262` | every request is answered: by the best HTTP or gRPC match if there is one, else by the TLS and TCP bands, else by the catch-all |
| `Ingress.EveryRequestAnswered` | `internal/controller/reconciler.go:258-262` | the same for hosts and paths: some rule serves the request, and no serving HTTP or gRPC rule precedes the one that answers |
| `Ingress.UnmatchedIs404` | `internal/controller/reconciler.go:258-262` | a request that no rule of any route serves is answered with 404 |
| `Ingress.FanOutServes` | `internal/cloudflare/ingress.go:181-226` | a fan-out serves exactly the product of its hosts and its paths, all by the same backend |
| `Ingress.RulesUpToMember` | `internal/cloudflare/ingress.go:52-75` | a route's rules are those of its route rules and nothing else |
| `Grpc.EscapeDotsIsQuoting` | `internal/cloudflare/ingress.go:489-490` | escaping only dots is quoting exactly for names without another metacharacter |
| `Grpc.GrpcExactMethod` | `internal/cloudflare/ingress.go:492-493` | an exact service and method match serves that one path |
| `Grpc.GrpcExactService` | `internal/cloudflare/ingress.go:494-495` | an exact service match serves exactly the paths that start with "/service/", the calls of the service among them |
| `Grpc.GrpcExactAnyService` | `internal/cloudflare/ingress.go:496-497` | an exact method match serves exactly the one-line paths that end with "/method", the calls of that method in any service among them |
| `Grpc.GrpcCompilation` | `internal/cloudflare/ingress.go:445-510` | every gRPC method match with plain names and no regular expression serves exactly the paths of its pattern, with the specificity of that pattern |
| `Grpc.SetOnCalls` | `internal/cloudflare/ingress.go:487-498` | a call is among the paths of a pattern exactly when the names the pattern has are those of the call |
| `Grpc.CallPathInjective` | `internal/cloudflare/ingress.go:492-493` | a path is one call at most |
| `Grpc.CallCompilation` | `internal/cloudflare/ingress.go:442-510` | for every API-valid gRPC method match without regular expression and every call: the emitted rule serves the call exactly when the service and the method, where given, are those of the call |
| `Grpc.OnlyCallsIff` | `internal/cloudflare/ingress.go:487-498` | such a rule serves calls only exactly when the match gives both service and method |
| `Grpc.NonCallsServed` | `internal/cloudflare/ingress.go:494-497` | "/m" and "/a/b/m" are served by a match on method m, "/s/" by one on service s |
| `Compilation.HttpMatchMeans` | `internal/cloudflare/ingress.go:374-409` | said on the match: no path and the root prefix serve everything, an exact path itself, a prefix itself without trailing slashes and what lies below it on one line; a path without type is a prefix |
| `Compilation.HttpMatchIsExactIff` | `internal/cloudflare/ingress.go:348-409` | under every reading of method, header and query conditions, the rule of an HTTPRoute match serves exactly what the match asks for if and only if it is not flagged as unsupported or serves nothing; it is flagged exactly when the match has such a condition |
| `Compilation.GrpcMatchIsExactIff` | `internal/cloudflare/ingress.go:442-462` | the same on calls for a GRPCRoute match, where its headers decide and the flag is never set |
| `Compilation.HeaderOnlyServesAll` | `internal/cloudflare/ingress.go:352-368` | a match on a header alone serves every request, flagged for an HTTPRoute, unflagged for a GRPCRoute |
| `Compilation.MatchesDenote` | `internal/cloudflare/ingress.go:345-462` | for HTTP and gRPC route rules alike, regular expressions included, the built matches serve exactly the paths the matches name, for GRPCRoutes among calls; other conditions aside |
| `Compilation.RouteCompilation` | `internal/cloudflare/ingress.go:41-179` | compilation preserves hosts and paths: for every route kind a route rule's tunnel rules serve exactly the requests, calls for GRPCRoutes, whose host is one of the route's and whose path one of its matches names, and carry its identity and backend |
| `Compilation.AsksPaths` | `internal/cloudflare/ingress.go:345-368` | what a rule asks for has a path it names, and a rule without method, header and query conditions asks for all its paths unconditionally |
| `Compilation.RouteIsExactIff` | `internal/cloudflare/ingress.go:41-179` | with all conditions: a route rule's tunnel rules serve exactly what it asks for, under every reading of method, header and query conditions, if and only if each of its paths is also asked for by a match without any; what it asks for is always served |
| `Compilation.FlaggedIff` | `internal/cloudflare/ingress.go:352-368` | some rule of a route rule is flagged exactly when the route is an HTTPRoute and one of its matches has a method, header or query condition |
| `Compilation.UnflaggedIsAsked` | `internal/cloudflare/builtrule.go:49-52` | an unflagged rule of an HTTPRoute serves only requests its route rule asks for, with all conditions |
| `Shadowing.NoShadowing` | `internal/controller/reconciler.go:234-246` | in the sorted band a rule not ranked as a regular expression that serves strictly less than another such rule comes first, HTTPRoute or GRPCRoute |
| `Shadowing.RegexAgainstLiteral` | `internal/cloudflare/precedence.go:33-39` | a rule ranked as a regular expression precedes a literal rule on a superset of its hosts exactly when its hostname is narrower or the literal rule has no path |
| `Shadowing.RegexPosition` | `internal/controller/reconciler.go:234-246` | the same for positions in the sorted band, user-written patterns included |
| `Shadowing.CallSubsetShape` | `internal/cloudflare/ingress.go:464-510` | one set of gRPC calls lies inside another only as call in service, call in method, or anything in everything |
| `Shadowing.BuiltCalls` | `internal/cloudflare/ingress.go:445-462` | every API-valid exact gRPC match is built into a rule the results below speak of |
| `Shadowing.GrpcNarrowerIff` | `internal/cloudflare/ingress.go:450-459` | between gRPC rules, a strictly narrower one takes precedence unless on the same hostname one call of a one-byte service meets its method in any service, when the later tie-breakers decide |
| `Shadowing.LiteralUnderGrpc` | `internal/cloudflare/precedence.go:22-39` | a literal rule strictly inside a gRPC rule always takes precedence |
| `Shadowing.NarrowerIff` | `internal/cloudflare/precedence.go:22-65` | for any two rules without user-written pattern, exactly when a strictly narrower one takes precedence and exactly when the wider one does |
| `Shadowing.ShadowingIff` | `internal/controller/reconciler.go:234-246` | the same for positions in the sorted band |
| `Shadowing.GrpcIsShadowed` | `internal/cloudflare/ingress.go:450-459` | an HTTP prefix rule precedes a gRPC rule all of whose requests it serves |
| `Shadowing.OlderMethodRuleShadows` | `internal/cloudflare/ingress.go:489-497` | an older method-only gRPC rule precedes the rule of one call it serves |
| `Shadowing.TakesInIff` | `internal/controller/attachment.go:163-166` | one hostname takes in all hosts of another exactly when a comparison of the two names says so |
| `Shadowing.HostRuleAnswersIff` | `internal/controller/reconciler.go:248-262` | among rules without paths, a rule never answers exactly when one earlier hostname takes in all of its hosts |
| `Shadowing.UnsortedAnswersIff` | `internal/controller/reconciler.go:248-262` | in the pushed list a TLS, TCP or catch-all rule so covered never answers, whatever else is attached; otherwise it answers what the sorted band leaves to it, and something when that band is empty |
| `Shadowing.TlsBandShadows` | `internal/controller/reconciler.go:248-262` | for two TLSRoutes in any pushed list the more precedent exact rule never answers a host it serves, because the wildcard rule listed before does |
| `Ranking.SamePathOrder` | `internal/cloudflare/precedence.go:41-65` | for two HTTPRoute matches with the same hostname and path, said on the matches: a method before none, then more headers, then more query parameters, then age, Namespace, name and rule index decide |
| `Ranking.PlaceInBand` | `internal/controller/reconciler.go:234-246` | every match of every attached HTTPRoute has its rule in the sorted band on each of its hostnames |
| `Ranking.RicherMatchFirst` | `internal/controller/reconciler.go:234-246` | in the sorted band the rules of the match that demands more stand before those of the other |
| `Serving.AttachedRuleServes` | `internal/controller/reconciler.go:471-485` | a route rule as attached and compiled serves a request, a call for GRPCRoutes, exactly when an eligible listener and the route serve the host and a match, regular expressions included, names the path |
| `Serving.AttachedRuleIsExactIff` | `internal/controller/reconciler.go:471-485` | and it serves exactly what is asked for, method, header and query conditions included, if and only if each of its paths is also asked for without such conditions, or no eligible listener shares a host with the route |
| `Serving.AskedIsBuilt` | `internal/controller/reconciler.go:186-248` | completeness over all HTTPRoutes, GRPCRoutes or TLSRoutes: a request some route rule asks for, with all conditions, is served by a rule built from it |
| `Serving.BuiltIsAsked` | `internal/controller/reconciler.go:186-248` | soundness: a built rule that serves a request, a call for GRPCRoutes, comes from a route rule that names its host and path, carries its identity and forwards to its backend; if it is an unflagged rule of an HTTPRoute, or every path of its route rule is asked for unconditionally, the request also meets the conditions of a match |
| `Serving.RequestReachesRoute` | `internal/controller/reconciler.go:186-262` | end to end from listener to answer: requests asked for by HTTPRoutes or GRPCRoutes are answered from their band by an unbeaten rule, and every answer by an HTTP, gRPC or TLS rule goes to the backend of a route rule that names its host and path, and that asks for it with all conditions where the previous row says so |
| `Unsupported.CollectUnsupportedMatchRoutes` | `internal/controller/reconciler.go:565-576` | the keys of exactly the routes with a flagged rule |
| `Unsupported.ReportedIff` | `internal/controller/reconciler.go:264-267` | a key is reported exactly when an attached HTTPRoute of that name has a match with a method, header or query condition; no GRPCRoute ever is |
| `Unsupported.ReportIsOwnIff` | `internal/controller/reconciler.go:565-576` | the report on an HTTPRoute is about the route itself exactly unless it has no such match and a namesake in another Namespace has |
| `Unsupported.UnreportedIsExact` | `internal/cloudflare/builtrule.go:49-52` | the rules of an unreported HTTPRoute serve exactly what they ask for, under every reading of the conditions |
| `Publishing.ConcreteEffectiveIff` | `internal/controller/attachment.go:33-77` | a concrete name is among the effective hostnames of a route exactly when the route and an eligible listener serve it and one of them spells it out, unless the two leave the host open |
| `Publishing.WantedIff` | `internal/controller/dns.go:42-68` | a concrete name is among those collected for DNS exactly when that holds for some listed HTTP, gRPC or TLS route |
| `Publishing.PublishedIff` | `internal/controller/reconciler.go:186-276` | from listed routes and listeners to records and back: after a clean pass a zone holds the Gateway's record for a concrete name exactly when it is the name's longest-suffix zone, some route is served under the name, and no other owner holds it; the record is proxied and points at the tunnel |
| `Publishing.SubdomainPublished` | `internal/controller/dns.go:70-211` | said on the names alone: after a clean pass every concrete name some route is served under, and that equals a zone's name or ends in it behind a dot, is published in such a zone with the longest name, or held by another owner there |
| `Attachment.NormalizeHostStableIff` | `internal/controller/attachment.go:159-161` | a hostname normalises in one step exactly when it does not end in two dots |
| `Attachment.IntersectionIsExact` | `internal/controller/attachment.go:135-172` | for every host and all hostnames: the result contains the host exactly when both inputs do, and no result means no common host |
| `Attachment.IntersectionCommutes` | `internal/controller/attachment.go:135-157` | the intersection does not depend on the order of its arguments |
| `Attachment.IntersectHostnames` | `internal/controller/attachment.go:115-133` | the deduplicating loop computes the common hostnames |
| `Attachment.RouteAttachmentHostnames` | `internal/controller/attachment.go:37-77` | the loop over listeners computes what the two lemmas below characterise |
| `Attachment.AttachmentIsUnion` | `internal/controller/attachment.go:33-77` | the effective hostnames, duplicate-free, denote the union over all eligible listeners of route and listener hosts; an empty list that attaches denotes all hosts |
| `Attachment.AttachesIff` | `internal/controller/attachment.go:33-36` | the flag is true exactly when the route shares a host with some eligible listener |
| `Attachment.EligibleIff` | `internal/controller/attachment.go:79-232` | said on the objects: a listener is eligible exactly when a parentRef names the Gateway and the listener and it takes routes of that kind and Namespace |
| `Attachment.AttachesExactly` | `internal/controller/attachment.go:33-77` | a route attaches exactly when it shares a host with such a listener |
| `Attachment.OtherNamespaceNeedsConsent` | `internal/controller/attachment.go:208-226` | a route of another Namespace attaches only through a listener that lets in all Namespaces or whose selector accepts this one |
| `Attachment.RequirementMeans` | `internal/controller/attachment.go:243-262` | what each selector operator demands of the labels |
| `Attachment.InHostMeans` | `internal/controller/attachment.go:163-166` | a wildcard stands for exactly the names that end in its tail behind the star, another hostname for itself |
| `Attachment.AttachedNamesGateway` | `internal/controller/attachment.go:79-113` | a route that attaches names the Gateway in some parentRef |
| `Attachment.EmptyValueAcceptsMissingLabel` | `internal/controller/attachment.go:235-240` | a selector and labels on which the code and Kubernetes disagree |
| `Attachment.SelectorAgreesIff` | `internal/controller/attachment.go:235-264` | for all selectors and labels, exactly when they agree |
| `Backends.ServedImpliesAccepted` | `internal/controller/xbackend.go:292-297` | a backend some route kind is served by is never reported as unacceptable |
| `Backends.ServedIff` | `internal/controller/xbackend.go:298-416` | a route kind is served exactly when the backend is acceptable on its own, its transport fits, and it is not a TLS backend a TCPRoute reads as TCP |
| `Backends.ServedExactly` | `internal/controller/xbackend.go:298-416` | field by field: an XBackend is served exactly with an external hostname, a valid port, a known protocol, TLS that can be honoured and is there where HTTP/2 needs it, and a transport the route kind can hand on |
| `Backends.ServedShape` | `internal/controller/xbackend.go:298-416` | the scheme follows TLS and TCP exactly, HTTP/2 is forced exactly where needed and only over TLS, never mutual TLS, and verification is never switched off |
| `Backends.ServerOnlyIsVerified` | `internal/controller/xbackend.go:360-382` | a ServerOnly backend is reached over https, verified, with its own validation hostname as server name |
| `Backends.CollectServiceBackends` | `internal/controller/servicebackend.go:35-78` | what is recorded is true of the cluster, every Service target is covered, nothing unauthorised is dereferenced, and failure means that a call failed |
| `Backends.CollectReferencedXBackends` | `internal/controller/xbackend.go:194-233` | the same for XBackends |
| `Backends.MemoisedIsDirect` | `internal/controller/servicebackend.go:80-95` | for every collected target the memoised maps give the result and the reason that checking grant, object and port afresh gives |
| `Backends.NotPermittedIff` | `internal/controller/refgrant.go:28-72` | said on the grants: a backendRef is refused as not permitted exactly when it leaves the route's Namespace and no single grant there has a from entry for the kind and Namespace of the route and a to entry for the target; XBackends only with the feature on, other kinds never |
| `Backends.LiveIffResolved` | `internal/cloudflare/ingress.go:294-319` | a rule forwards to a live origin exactly when its first backendRef resolves; a native URL names a TCP port the Service exposes |
| `Backends.ServiceRuleIff` | `internal/cloudflare/ingress.go:291-345` | from the cluster to the rule: a rule for a Service forwards exactly when the reference is local or granted and the Service exposes the port over TCP, with the scheme of the route kind, the Service's name and that port; otherwise it answers 500 or 503 |
| `Backends.LiveIsGranted` | `internal/controller/refgrant.go:28-72` | a rule that forwards into another Namespace has such a grant, for Services and XBackends |
| `Backends.NativeUrl` | `internal/cloudflare/ingress.go:291-345` | a backendRef the resolver leaves alone becomes the in-cluster URL with the default port of its route kind; no backendRef, or a TCPRoute's without port, is 503 |
| `Backends.RouteResolvedRefs` | `internal/controller/xbackend.go:462-470` | the loop finds the worst reason |
| `Backends.WorstMeaning` | `internal/controller/xbackend.go:423-444` | status is OK exactly when every reference resolves; otherwise it is one of the actual failures and none is more severe |
| `Backends.WorstIsRanked` | `internal/controller/xbackend.go:421-444` | which failure is reported when there are several |
| `Backends.WorstIsFirst` | `internal/controller/xbackend.go:462-470` | among equally severe failures the first one is reported |
| `Watch.CollectRoutes` | `internal/controller/reconciler.go:458-563` | the attached routes with their effective hostnames, in order, or a failure |
| `Watch.AttachedOrigin` | `internal/controller/reconciler.go:471-485` | an attached route is a listed one up to its hostnames and names the Gateway as a parent |
| `Watch.MemoisedListIsDirect` | `internal/controller/reconciler.go:212-262` | the whole pushed list, origin settings included, and every route's ResolvedRefs are those of direct resolution |
| `Watch.RouteToGateways` | `internal/controller/controller.go:176-220` | exactly the Gateways the route's parentRefs name |
| `Watch.ServiceToGateways` | `internal/controller/servicebackend.go:97-154` | exactly the parents of the listed routes that reference the Service, each once |
| `Watch.AddRoutes` | `internal/controller/servicebackend.go:102-115` | the routes of one kind add exactly their new parents |
| `Watch.UnaffectedRoutes` | `internal/controller/servicebackend.go:97-98` | a change to one Service alters nothing pushed or reported, settings included, for routes that do not reference it |
| `Watch.WatchIsComplete` | `internal/controller/servicebackend.go:97-154` | if a change to one Service alters what a Gateway pushes, settings included, or reports, the Gateway is among the parents ServiceToGateways returns |
| `Policies.OlderTotal` | `internal/controller/policy.go:248-261` | asymmetric, and of two different objects one is older |
| `Policies.OlderTransitive` | `internal/controller/policy.go:248-261` | transitive, hence a strict total order on different objects |
| `Policies.PolicyForTarget` | `internal/controller/originpolicy.go:55-66` | the search loop of origin and access policies computes Winner |
| `Policies.WinnerIsOldest` | `internal/controller/accesspolicy.go:137-156` | the winner targets the resource and is older than every other policy doing so; there is none exactly when none targets it |
| `Policies.WinnerIsFirst` | `internal/controller/policy.go:248-261` | said on the objects: the winner references the target in the Gateway API group, and every other policy doing so is younger, or as old and in a later Namespace, or there under a later name |
| `Policies.WinnerIgnoresOrder` | `internal/controller/accesspolicy.go:139-142` | the same policies in any order have the same winner |
| `Policies.WinnerIsOwnIff` | `internal/controller/originpolicy.go:55-66` | with the policies of one Namespace, a route's winner is the one its own Namespace's policies would give exactly when it lies there or nothing targets its kind and name |
| `Policies.TargetKeyInjective` | `internal/controller/policy.go:184-187` | distinct kinds and names have distinct keys |
| `Policies.ValidTargetsExact` | `internal/controller/policy.go:10-27` | a key is valid exactly for the Gateway and its attached routes |
| `Policies.AcceptedIff` | `internal/controller/policy.go:220-246` | accepted exactly when some target is valid and on no valid target an older policy is in the way |
| `Policies.AppliedIff` | `internal/controller/accesspolicy.go:137-156` | any policy is applied on a target exactly when it names it in the Gateway API group and no older policy is in the way |
| `Policies.AcceptedIsApplied` | `internal/controller/accesspolicy.go:139-142` | an accepted policy is the applied winner on a valid target exactly when it names that target in the Gateway API group |
| `Policies.ConflictedIsApplied` | `internal/controller/policy.go:232-241` | a conflicted policy is applied on a valid target exactly when it names it in the group and is not beaten there, and there is one it is not applied on |
| `Policies.AcceptedIffAppliedEverywhere` | `internal/controller/policy.go:220-246` | for every policy: it has a valid target and wins on all of them exactly when it is accepted and names each of them in the Gateway API group |
| `Policies.AcceptedUnique` | `internal/controller/policy.go:220-246` | at most one policy is accepted per target |
| `Policies.SomeoneIsAccepted` | `internal/controller/policy.go:220-246` | if some policy has a valid target in the Gateway API group, one is accepted |
| `Policies.ConflictedMayStillApply` | `internal/controller/policy.go:237-239` | a policy reported as conflicted that is the applied winner on another target |
| `Policies.ForeignGroupAcceptedNotApplied` | `internal/controller/policy.go:227-232` | a policy aimed at a foreign group that is accepted and never applied |
| `OriginSettings.LayerMonoid` | `internal/cloudflare/merge.go:3-7` | layers stack in any grouping and an unset layer adds nothing |
| `Origins.MergeOriginRequest` | `internal/cloudflare/merge.go:8-58` | every field set on the base keeps its value and every other one takes the override's, for all fourteen fields; only the base is written, and which argument the result aliases |
| `Origins.CloneOriginRequest` | `internal/cloudflare/ingress.go:248-257` | a fresh object with the same value, nil for nil |
| `Origins.EffectiveOriginRequest` | `internal/controller/originpolicy.go:70-80` | a fresh object holding the route policy over the Gateway policy, nil exactly when neither exists |
| `Origins.AccessIsOwnIff` | `internal/controller/accesspolicy.go:30-36` | the access settings applied to a route are those of its own Namespace's policies exactly if it lies there, the Gateway has a policy, or nothing targets its kind and name |
| `Origins.EffectiveIsOwnIff` | `internal/controller/originpolicy.go:70-80` | the same for origin settings, with the case that the Gateway's settings hide the difference |
| `Origins.ApplyAccessPolicies` | `internal/controller/accesspolicy.go:21-47` | every rule's access is the Gateway policy's, else its route policy's, else what it was; rules still share no object |
| `Origins.AccessRule` | `internal/controller/accesspolicy.go:32-44` | one rule's step changes that rule's access and nothing else |
| `Origins.ApplyOriginPolicies` | `internal/controller/originpolicy.go:140-164` | every rule is layered over its route's effective settings; neither rules nor cache entries come to share an object |
| `Origins.MergeInto` | `internal/controller/originpolicy.go:155-162` | the rule gets the layered value, the cached override keeps its value |
| `Origins.CachedSettings` | `internal/controller/originpolicy.go:144-151` | the cache answers with the effective settings of that route kind and name, which routes of several Namespaces share |
| `Origins.LayerRule` | `internal/controller/originpolicy.go:152-162` | layering one rule leaves the cache valid and unshared |
| `OriginRules.RuleOrigin` | `internal/cloudflare/ingress.go:54-71` | a rule's settings over its backend's, without writing to the backend's object |
| `OriginRules.StartFields` | `internal/cloudflare/ingress.go:52-152` | said on the fields: an HTTPRoute's host rewrite and timeout before its backend's settings, HTTP/2 on every GRPCRoute, no verification on a TLSRoute the resolver has no answer for, everything else as the backend brings it |
| `OriginRules.Emit` | `internal/cloudflare/ingress.go:184-226` | each rule of a fan-out gets a private copy of the settings |
| `OriginRules.SourceAt` | `internal/cloudflare/ingress.go:48-75` | every built rule comes from a rule of a listed route and carries its identity |
| `OriginRules.RuleSlots` | `internal/cloudflare/ingress.go:52-152` | the rules of a route rule start with what it and the resolver's answer ask for; only TLS rules the resolver has no answer for, those without backendRefs included, start unverified |
| `OriginRules.BuildSlots` | `internal/cloudflare/ingress.go:45-179` | the same for all rules of all routes, with unshared objects |
| `BackendTls.GetBackendTlsConfig` | `internal/controller/backendtls.go:18-33` | the first policy targeting the Service decides, otherwise verification is off |
| `BackendTls.TlsConfigMeaning` | `internal/controller/backendtls.go:13-33` | verification is off exactly when no policy targets the Service, otherwise the server name is that of the first policy that does |
| `BackendTls.CollectClaims` | `internal/controller/backendtls.go:108-138` | one claim per TLS route rule with a backend, in order |
| `BackendTls.RegisterClaims` | `internal/controller/backendtls.go:106-138` | external rules by identity, and for every hostname the backend of the last Service claim |
| `BackendTls.ApplyBackendTlsPolicies` | `internal/controller/backendtls.go:82-173` | every rule gets its hostname's configuration as a private copy, external and unclaimed rules keep theirs, or the pass is given up |
| `BackendTls.OverrideRule` | `internal/controller/backendtls.go:146-170` | one rule's step changes that rule alone and keeps the cache valid |
| `BackendTls.ExternalIff` | `internal/controller/backendtls.go:94-122` | with distinct routes, a rule counts as external exactly when its own first backendRef is an XBackend |
| `BackendTls.LastClaimantDecides` | `internal/controller/backendtls.go:127-136` | a claimed hostname stands for the backend of the last Service claim on it |
| `BackendTls.LastClaimWins` | `internal/controller/backendtls.go:127-136` | a Service rule gets its own backend's configuration on a hostname exactly when the last Service claim's backend is under a policy with the same hostname, or both are under none |
| `BackendTls.SoleClaimGetsPolicy` | `internal/controller/backendtls.go:18-33` | without rivals on its hostname a TLS rule for a Service gets what the first policy naming it in the Service's own Namespace says, and is not verified without one |
| `BackendTls.LaterClaimTakesHostname` | `internal/controller/backendtls.go:127-136` | of two TLSRoutes on one hostname the first one, whose backend has a policy, ends unverified |
| `Push.OtherNamespaceGetsPolicy` | `internal/controller/accesspolicy.go:30-36` | a policy for a route of the Gateway's Namespace ends up on a route of the same kind and name in another |
| `Push.ClusterAnswers` | `internal/controller/xbackend.go:238-286` | for every cluster a permitted, servable ServerOnly XBackend is what the resolver answers with |
| `Push.MemoisedAnswers` | `internal/controller/xbackend.go:194-286` | the same for the memoised resolver |
| `Push.StartProtected` | `internal/cloudflare/ingress.go:112-124` | a rule whose XBackend the resolver answered for starts verified under the backend's own name, on TLSRoutes too |
| `Push.ExternalTlsSurvives` | `internal/controller/xbackend.go:376-382` | for every resolver and all policies an HTTP or gRPC rule built from a ServerOnly XBackend ends verified with the backend's server name |
| `Push.ExternalTlsRouteSurvives` | `internal/controller/backendtls.go:94-106` | so does a TLS rule, for every list of TLSRoutes and all policies, whatever claims its hostname |
| `Push.LayeringOrder` | `internal/cloudflare/merge.go:3-7` | four layers stack in the order rule, backend, route policy, Gateway policy, whichever are there; the access policy's settings replace theirs |
| `Push.EffectiveFields` | `internal/controller/originpolicy.go:70-80` | each of the nine fields an origin policy can set is the rule's own value, else the spec of the policy winning on the route, else that of the one winning on the Gateway; no other field changes |
| `Push.FieldsOfL7` | `internal/controller/reconciler.go:241-245` | so on HTTP and gRPC rules, whose access comes from the policy winning on the Gateway, else on the route, else stays as built |
| `Push.FieldsOfL4` | `internal/controller/reconciler.go:248-256` | and on TLS and TCP rules, which access policies leave alone |
| `Push.LayerPolicies` | `internal/controller/reconciler.go:241-245` | both policy passes give every rule its final value and keep rules separate |
| `Push.LayeredRules` | `internal/controller/reconciler.go:239-245` | the HTTP and gRPC pipeline on the heap, from routes and resolver: every built rule ends with its own final value in its own object, and verified external backends stay verified |
| `Push.TlsRules` | `internal/controller/reconciler.go:248-253` | the same for TLS rules with their overrides |
| `Push.TcpRules` | `internal/controller/reconciler.go:255-256` | the same for TCP rules |
| `Push.SortErased` | `internal/cloudflare/precedence.go:10-14` | settings play no part in the order |
| `Push.PushedIsIngress` | `internal/cloudflare/builtrule.go:55-60` | the pushed list without its settings is the rule list the results on first match are about |
| `Push.ToIngressRules` | `internal/cloudflare/builtrule.go:55-62` | what is pushed of each rule: hostname, path, service and settings, in order |
| `Push.AssembleConfig` | `internal/controller/reconciler.go:239-262` | build, layer, sort, override and concatenate give the pushed list, or the pass is given up |
| `StatusLists.SetConditionLoop` | `internal/controller/status.go:434-442` | the loop replaces the first condition of the type or appends |
| `StatusLists.SetConditionFind` | `internal/controller/status.go:433-442` | afterwards the type reads as the new condition and every other type as before |
| `StatusLists.TransitionTimeLoop` | `internal/controller/status.go:424-431` | the loop computes TransitionTime |
| `StatusLists.TransitionTimeIs` | `internal/controller/status.go:422-431` | with unique types, the old time exactly when the status has not moved |
| `StatusLists.Status.UpsertAncestorCondition` | `internal/controller/policy.go:148-166` | the list becomes the upserted one |
| `StatusLists.Status.UpsertXBackendAncestor` | `internal/controller/xbackendstatus.go:129-157` | reports a change exactly when the list changed, and skips only repeats and a full list |
| `StatusLists.Status.RemoveAncestor` | `internal/controller/policy.go:173-182` | reports a removal exactly when the list changed |
| `StatusLists.RepeatIsNoOp` | `internal/controller/xbackendstatus.go:132-143` | writing a repeated condition would change nothing, the time included |
| `StatusLists.ApplyKeepsUnique` | `internal/controller/policy.go:146-182` | one edit keeps keys and condition types unique and the list within its cap |
| `StatusLists.ApplySparesOthers` | `internal/controller/policy.go:148-182` | one edit leaves the entries of other controllers, and their order, alone |
| `StatusLists.RunIsSafe` | `internal/controller/xbackendstatus.go:134-179` | both over any run of upserts and removes |
| `StatusLists.UpsertReads` | `internal/controller/policy.go:146-166` | exactly what every condition of every entry reads after an upsert: the transition time moves only when the status moves |
| `StatusLists.UpsertLands` | `internal/controller/policy.go:146-166` | said on the entries: other Gateways, of the same name in other Namespaces too, and other controllers keep value and place; the Gateway's own entry says the condition's content, unless it is missing and the list holds 16 |
| `StatusLists.RemoveReads` | `internal/controller/xbackendstatus.go:168-179` | a removed entry is gone and every other reads as before |
| `StatusLists.SetParentStatus` | `internal/controller/status.go:499-509` | the loop replaces the Gateway's entry or appends |
| `StatusLists.ParentSetMeaning` | `internal/controller/status.go:498-509` | the Gateway's entry is there once with the new value, every other parent keeps value and place |
| `StatusLists.ParentsKeepApart` | `internal/controller/status.go:498-509` | parents of other Gateways, of the same name in other Namespaces too, and of other controllers keep value and place |
| `Lifecycle.ProvisionAgrees` | `internal/controller/reconciler.go:142-183` | wherever provisioning stops, Secret and tunnel stay in agreement and a standing tunnel stays; if it completes, everything is in place |
| `Lifecycle.AppliedKeepsInv` | `internal/controller/reconciler.go:122-366` | an apply keeps the invariant under all failures, and success means ready |
| `Lifecycle.CleanedUpFacts` | `internal/controller/reconciler.go:368-441` | a cleanup keeps the invariant, and without error leaves nothing |
| `Lifecycle.ReconcileKeepsInv` | `internal/controller/reconciler.go:66-120` | every reconcile keeps the invariant, whatever call fails before or after its effect and even if the user deletes the Gateway meanwhile |
| `Lifecycle.EnvironmentKeepsInv` | `internal/controller/reconciler.go:92-117` | so does everything others may do between passes, deleting and recreating the Gateway included |
| `Lifecycle.ReachableStates` | `internal/controller/reconciler.go:66-441` | in every reachable state a tunnel, Secret or Deployment implies the finalizer, a record with the UID of any Gateway that ever had the name implies that it is the present one and holds the finalizer, and unless the Gateway is being deleted Secret and tunnel agree and its records point at a tunnel with rules |
| `Lifecycle.NothingOutlivesGateway` | `internal/controller/reconciler.go:92-105` | in every reachable state without the Gateway there is no tunnel, Secret or Deployment, and no record with the UID of any Gateway that ever had the name |
| `Lifecycle.RecordsLeadToRules` | `internal/controller/reconciler.go:269-275` | in every reachable state with a Gateway that is not being deleted, each of its records points at the present tunnel, and that tunnel has been given rules |
| `Lifecycle.SuccessIsReady` | `internal/controller/reconciler.go:142-177` | a successful reconcile ends with a stored token naming the current tunnel and the secret it was created with |
| `Lifecycle.SuccessIsPushed` | `internal/controller/reconciler.go:122-366` | a successful reconcile has pushed the configuration its routes, resolver and policies call for to the tunnel the stored token names with its account, ID and 32-byte secret, and none of the calls for Gateway, class, class status, collection, push and statuses failed |
| `Lifecycle.DnsWaitsForPush` | `internal/controller/reconciler.go:269-275` | a pass on a live Gateway changes a zone only if its push went through, and leaves the tunnel with that configuration |
| `Lifecycle.SuccessIsPublished` | `internal/controller/reconciler.go:122-366` | a successful reconcile with DNS managed, a tunnel ID and canonical hostnames leaves all zones converged on these hostnames and the tunnel at hand, and no wanted name was held by another owner or blocked |
| `Lifecycle.SuccessPublishesExactly` | `internal/controller/reconciler.go:122-366` | from the cluster to DNS in one reconcile: success means that a zone holds the Gateway's record for a concrete name exactly when it is the longest-suffix zone, some listed route is served under the name, and no other owner holds it; the record points at the tunnel just configured |
| `Lifecycle.OtherwiseUntouched` | `internal/controller/reconciler.go:66-105` | nothing changes unless Gateway and class can be read, the class is ours, and the Gateway is alive or holds our finalizer |
| `Lifecycle.OptedOutOfDns` | `internal/controller/dns.go:35-40` | no zone changes for a live Gateway annotated "false", nor for any with DNS switched off |
| `Lifecycle.FinalizerGoesLast` | `internal/controller/reconciler.go:92-105` | the finalizer goes only in a pass on a deleted Gateway that leaves no tunnel, Secret, Deployment or record |
| `Lifecycle.SuccessfulDeletion` | `internal/controller/reconciler.go:92-105` | a successful reconcile of a deleted Gateway has removed all four and the finalizer |
| `Lifecycle.HealthyReconcileIsReady` | `internal/controller/reconciler.go:122-366` | recovery: from every state the invariant allows, one reconcile in which no call outside DNS fails ends ready and configured, and can report an error of DNS only |
| `Lifecycle.HealthyCleanup` | `internal/controller/reconciler.go:368-441` | cleanup is best effort: tunnel, Secret and Deployment go whatever DNS does, and the finalizer stays exactly when DNS reports an error |
| `Lifecycle.AgreementIff` | `internal/controller/secret.go:27-86` | with the Secret written by others too: provisioning that succeeds ends in agreement exactly when there was no tunnel, or the Secret was present and invalid or held the tunnel's secret |
| `Lifecycle.DeletedSecretDisagrees` | `internal/controller/secret.go:63-66` | a Secret deleted behind a standing tunnel leads to success in disagreement |
| `Lifecycle.LostRegenerationDisagrees` | `internal/controller/reconciler.go:155-161` | a regeneration followed by a failed call is forgotten, and the next pass succeeds in disagreement |
| `LifecyclePasses.Reconciler.EnsureTunnelSecret` | `internal/controller/secret.go:27-86` | on success the Secret holds the returned key, a valid Secret is never rewritten, the flag means an invalid one was, and any change puts the new random key in |
| `LifecyclePasses.Reconciler.EnsureGatewayTunnel` | `internal/controller/reconciler.go:148-170` | on success the returned ID is the standing tunnel's; a tunnel is replaced only after a regeneration, and any new one has the given key |
| `LifecyclePasses.Reconciler.StoreTunnelToken` | `internal/controller/secret.go:88-107` | on success the Secret holds the token; its key never changes |
| `LifecyclePasses.Reconciler.ProvisionTunnel` | `internal/controller/reconciler.go:142-183` | wherever it stops, Secret and tunnel stay in agreement, and a returned ID means everything is in place |
| `LifecyclePasses.Reconciler.UpdateTunnelConfiguration` | `internal/cloudflare/client.go:119-131` | the tunnel with this ID gets the configuration unless the call failed before it took effect |
| `LifecyclePasses.Reconciler.RouteHostnames` | `internal/controller/dns.go:42-68` | the collected names of the attached routes |
| `LifecyclePasses.Reconciler.PublishDns` | `internal/controller/reconciler.go:274-278` | the DNS part of an apply is one pass, or nothing when DNS is not managed |
| `LifecyclePasses.Reconciler.Apply` | `internal/controller/reconciler.go:122-366` | an apply is one step of the Applied relation: provision, assemble the configuration from routes and policies, push it, and only then publish the route hostnames |
| `LifecyclePasses.Reconciler.Cleanup` | `internal/controller/reconciler.go:368-441` | a cleanup is one step of the CleanedUp relation: no failure stops the rest, any failure is reported |
| `LifecyclePasses.Reconciler.Reconcile` | `internal/controller/reconciler.go:66-120` | a reconcile is one step of the Reconciled relation the invariants are proved about |

## Left out

- SortByPrecedence: sorts by insertion; `sort.SliceStable` itself is not modelled, and `StableSortUnique` shows that any stable sort gives the same list.
- BuildIngressRules: stands for the four builders, which differ in scheme, default port, matches and hostnames as the route kind decides; the settings objects of the rules are built in `OriginRules`, in step with it, and `Push` joins the two.
- ShadowingIff: covers rules whose sets of requests are known; of a pattern a user wrote, only its place in the order is known (`RegexPosition`). Two matches of one route rule that tie on every key keep their build order, and share their backend.
- RequestReachesRoute: assumes hostnames as API validation admits them, and speaks of HTTPRoutes, GRPCRoutes and TLSRoutes; TCPRoutes have no hostname. Of requests to GRPCRoutes that are no calls it says only that they are answered.
- GrpcMatchIsExactIff: gRPC methods given as regular expressions, or with names API validation rejects, stand for what the pattern they are put into matches on calls.
- HttpMatchIsExactIff: how methods, headers and query parameters are compared is left open, since nothing in the pushed rules depends on it.
- PublishedIff: assumes names that neither host nor DNS normalisation changes, as API validation admits them.
- LiveIffResolved: assumes that Service ports lie between 1 and 65535, as the API server guarantees.
- SuccessIsPushed: takes what a pass reads of the cluster as one input; how routes and resolver follow from the cluster is the subject of `Watch` and `Backends`, and `SuccessPublishesExactly` joins the routes.
- CleanPassConverges: assumes canonical hostnames; `CollectedMeaning` gives them exactly for lists of names that normalise in one step.
- AgreementIff: excludes the coincidence that a newly drawn random secret equals the tunnel's old one.
- A nil settings object and one with nothing set are the same value.
- Route timeouts and host rewrites are given as values; extracting them from filters and parsing durations is not modelled.
- Reading the cluster: lists and gets return one consistent snapshot, and route namespaces are not empty. Cache staleness and concurrent passes over one Gateway are not modelled.
- Names in comments, log output, error texts and status messages. An error is a flag, so which of several errors is returned first is not modelled.
- PolicyAffected and Overridden conditions, listener status and counts, and route conditions other than the parent entry: the list operations they use are modelled.
- `routeTransitionTime`, which also accepts a parent without namespace, and `CheckRouteAttachment`, which the reconcile path does not call.
- Translation to the Cloudflare SDK, pagination, TTL and record types: field copying.
- The content of the Deployment, CloudflareTunnelConfig, CRDs, RBAC, manager setup and preflight checks.
- base64 and JSON encoding of the token and the random generator.
