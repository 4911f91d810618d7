# Verified model of spiffecli's clock, certificate inspection and development trust domain

Three parts of spiffecli are modelled and proved:

* **The deterministic test clock.** Timers and tickers are objects updated in place;
  the pending ones sit in a slice that `container/heap` keeps in heap order
  (`TestClock`, `HeapOrder`). Every operation is proved to change the observable
  state exactly as a small functional model says (`ClockModel`), and the laws of the
  clock are proved of that model and of the order of expiries (`ClockSchedule`):
  advancing composes, a client that steps from expiry to expiry ends where one big
  advance ends however ties are broken, and nothing pending is ever overdue.
* **Certificate chains and forests.** The union of two certificate lists, the first
  possible parent of each certificate, the leaf, the chain above it, its lines, the
  verified path that can be shown instead, and the depth-first rendering of the forest
  (`ParentMaps`, `CertChain`, `ChainFormat`, `PathSearch`, `CertTree`, `CertForest`,
  `CertOrder`).
  The parent relation may contain cycles, because matching key identifiers are not
  checked against signatures; `Walks` has the facts about such graphs. The proofs use
  `IsParent` only as a relation.
* **The development trust domain.** Rotation and minting of X.509-SVIDs and JWT-SVIDs,
  the bundles, the validators of the same repository, every interleaving of rotations
  and mints, and the stream of X.509-SVIDs to a workload (`X509Authority`, `JwtSvid`,
  `KeyIds`, `TrustDomains`, `Interleavings`, `Guarantees`, `Workload`, `Streams`).

`dafny verify dfyconfig.toml` checks the whole project.

## What is assumed

* Times and durations are unbounded integers, in nanoseconds since the Unix epoch
  where an absolute time matters. The mutex of the clock makes its operations atomic.
* A Go channel of capacity 1 is an optional value. A panic is a `Failure` result that
  leaves the state unchanged; an operation whose panic cannot happen is proved to succeed.
* Fingerprints, keys and signatures are symbolic: different certificates have
  different fingerprints, fresh keys are different, and a signature verifies under
  the key pair that made it and under no other. Certificates are version 3, so a parent
  may sign if its basic constraints and, when given, its key usage say so.
* `x509.CreateCertificate` follows its documentation: the issuer is the parent's
  subject, the authority key identifier is the parent's subject key identifier unless
  the certificate is self-issued, a CA gets a subject key identifier, and times lose
  their fractions of a second. The text of a SPIFFE ID parses back to that ID.
* What a stream meets in each round (the instant, the key, the authority, whether sending
  succeeds, how the wait ends) is a parameter, and so are the chains that
  `Certificate.Verify` lists.
* The claim checks of `go-jose` require every expected audience to be in the token and
  compare times with a tolerated clock skew, here any `leeway`.

## Where the code differs from its comments

* `resetTimer` says that a one-shot reset to no time at all expires now. It does not:
  it becomes pending and is only delivered by the next advance, unlike a new timer
  (`ClockModel.ResetIsNotDelivered`).
* `MintX509SVID` and `MintJWTSVID` copy the authority list under the lock but check the
  length of the live list. A rotation between the two lets a mint index an empty copy
  (`Guarantees.RaceExists`, `Guarantees.JwtRaceExists`). That happens exactly if the copy
  was taken before the first rotation of that domain (`Guarantees.PanicsIffSnapshotEmpty`,
  `Guarantees.JwtPanicsIffSnapshotEmpty`). `Run` rotates each domain before it serves that
  domain, and this order within each domain is enough, whatever the other domains are
  doing (`Guarantees.RotatingFirstIsSafe`).
* `isSvid` says that the type header is checked if it is present. A token without one
  is rejected if none of its headers has any extra fields
  (`JwtSvid.MissingTypeAcceptedIff`), although validation accepts such tokens
  (`JwtSvid.UntypedToken`).
* Minting a JWT-SVID does not check that the ID belongs to the minting trust domain;
  the token is then never accepted (`Guarantees.JwtRoundTrip`,
  `Guarantees.ForeignTokenExists`).
* `--shortest-path` promises the shortest valid path. The code shows the first path that
  `Certificate.Verify` lists, which promises no order by length. The path shown is sure to
  be a shortest one if and only if all valid chains from the leaf to a root are equally
  long (`PathSearch.ShortestIffEqualLengths`), for instance because no certificate has two
  possible signers (`PathSearch.OneSignerOneChain`). Five certificates, one of them
  cross-signed, have a longer path shown when chains are searched depth first
  (`PathSearch.LongerPathShown`).

## Model

| member | source | states |
|---|---|---|
| TestClock.TestTimer.Trigger | internal/test/testclock/clock.go:357-365 | A value already in the channel is kept; an empty channel receives the expiry |
| TestClock.TestTimer.Receive | internal/test/testclock/clock.go:342-345 | A client takes what the channel holds and nothing else changes |
| TestClock.TestTimer.Reset | internal/test/testclock/clock.go:347-350 | True exactly if the timer was pending; the timer is pending at now plus the clamped duration |
| TestClock.TestTimer.Stop | internal/test/testclock/clock.go:352-355 | True exactly if the timer was pending; only its being pending changes |
| TestClock.TestTicker.Reset | internal/test/testclock/clock.go:374-380 | Panics for a non-positive interval and changes nothing then; otherwise resets expiry and interval |
| TestClock.TestBackend.HeapUp | internal/test/testclock/clock.go:395-399 | Sifting up repairs a heap that is out of order only above one node, with the same timers |
| TestClock.TestBackend.HeapDown | internal/test/testclock/clock.go:395-399 | Sifting down repairs a heap that is out of order around one node, except above it when the node does not move |
| TestClock.TestBackend.HeapFix | internal/test/testclock/clock.go:240-240 | Heap order is restored after a key changed anywhere, with the same timers |
| TestClock.TestBackend.HeapPush | internal/test/testclock/clock.go:400-400 | One timer is added, heap order and distinctness are kept |
| TestClock.TestBackend.HeapRemove | internal/test/testclock/clock.go:388-388 | Exactly the timer at the given position is removed, heap order and distinctness are kept |
| TestClock.TestBackend.Pop | internal/test/testclock/clock.go:402-408 | The last timer of the slice is taken off |
| TestClock.TestBackend.DropTimer | internal/test/testclock/clock.go:385-393 | Reports whether the timer was in the heap, and removes it and nothing else |
| HeapOrder.SiftUp | internal/test/testclock/clock.go:398-399 | One exchange with the parent moves the only possible disorder one level up |
| HeapOrder.SiftDown | internal/test/testclock/clock.go:398-399 | One exchange with the lesser child moves the only possible disorder one level down |
| HeapOrder.RootIsLeast | internal/test/testclock/clock.go:182-185 | The first slot of the heap holds a least expiry |
| TestClock.TestBackend.RootIsNext | internal/test/testclock/clock.go:182-196 | The timer in the first slot is one of those that expire first |
| TestClock.TestBackend.Next | internal/test/testclock/clock.go:179-186 | The delay to a true minimum of the pending expiries, or -1 exactly if nothing is pending; never another negative value |
| TestClock.TestBackend.Step | internal/test/testclock/clock.go:188-202 | Fires exactly one timer, one that expires first, and moves the clock to its expiry; neither panic can happen |
| TestClock.TestBackend.Advance | internal/test/testclock/clock.go:204-209 | Every timer settles at now + d, the count is the sum of all expiries until then, and the order of expiries is a legal one; a negative d panics without effect |
| TestClock.TestBackend.AdvanceTo | internal/test/testclock/clock.go:211-216 | The same for an absolute time, with the order of expiries; a time in the past panics without effect |
| TestClock.TestBackend.AdvanceUnderLock | internal/test/testclock/clock.go:218-252 | Both modes: exactly one timer, or all expiries up to the target; clears the in-progress mark |
| TestClock.TestBackend.FireDue | internal/test/testclock/clock.go:227-248 | The loop terminates, fires in a legal order and leaves nothing due |
| TestClock.TestBackend.FireRoot | internal/test/testclock/clock.go:234-243 | One iteration: a ticker moves on by its interval and stays, a one-shot is dropped, nothing else changes |
| TestClock.TestBackend.NewTicker | internal/test/testclock/clock.go:147-152 | Panics for a non-positive interval; otherwise a fresh pending ticker |
| TestClock.TestBackend.NewTimer | internal/test/testclock/clock.go:156-158 | A fresh one-shot, pending or, without time to run, already delivered |
| TestClock.TestBackend.MakeTimer | internal/test/testclock/clock.go:254-288 | Clamping, interval, immediate delivery or insertion into the heap |
| TestClock.TestBackend.ResetTimer | internal/test/testclock/clock.go:290-316 | Sets expiry and interval, moves a pending timer within the heap or inserts it, and reports which |
| TestClock.TestBackend.StopTimer | internal/test/testclock/clock.go:318-323 | Removes the timer if pending and reports it |
| ClockModel.ClosedForm | internal/test/testclock/clock.go:227-248 | A due one-shot fires once and is dropped; a due ticker fires floor((target - when) / interval) + 1 times and ends at its least grid point after target |
| ClockModel.SettleTwice | internal/test/testclock/clock.go:227-248 | For one timer, firing up to a and then up to b is firing up to b, with no expiry lost or doubled |
| ClockModel.TotalZero | internal/test/testclock/clock.go:228-232 | The count is zero exactly if nothing is due |
| ClockModel.AdvanceComposes | internal/test/testclock/clock.go:204-252 | Advance(a) then Advance(b) reaches the state and the total count of Advance(a + b) |
| ClockModel.ResetIsNotDelivered | internal/test/testclock/clock.go:290-316 | A one-shot reset to no time stays pending, unlike a new one, until the next advance |
| ClockModel.TickerRate | internal/test/testclock/clock.go:147-152 | Over the next e of time a ticker made or reset to d fires floor(e / d) times |
| ClockModel.OneShotExpiresOnce | internal/test/testclock/clock.go:254-316 | A one-shot made or reset to d fires once, and not before d has passed |
| ClockModel.StoppedIsSilent | internal/test/testclock/clock.go:318-323 | A stopped timer never changes again by advancing, and exactly its expiries leave the count |
| ClockModel.NewDelivers | internal/test/testclock/clock.go:254-288 | The channel of a new timer or ticker is empty until its time has passed and then holds its first expiry; one without time to run holds the clock's reading at once |
| ClockModel.ResetDelivers | internal/test/testclock/clock.go:290-316 | A reset keeps what the channel holds; an empty channel gets the new expiry in its time |
| ClockModel.ReceivedOnce | internal/test/testclock/clock.go:342-365 | A received value is gone, the next one received is the first expiry since, and receiving changes no count |
| ClockSchedule.OpIsLocal | internal/test/testclock/clock.go:147-323 | No operation but advancing touches another timer, and only advancing and stepping move the clock |
| ClockSchedule.LegalSettles | internal/test/testclock/clock.go:227-248 | No prefix of the expiries changes where the timers settle or how many expiries there are |
| ClockSchedule.LegalSorted | internal/test/testclock/clock.go:227-248 | Fired times never decrease, and what is still pending comes later |
| ClockSchedule.LogStartsNow | internal/test/testclock/clock.go:225-248 | No fired time lies before the clock's reading when the advance began |
| ClockSchedule.LegalTimes | internal/test/testclock/clock.go:236-243 | A ticker's fired times are consecutive grid points, a one-shot fires at most once, and a channel not drained keeps its first value |
| ClockSchedule.ExhaustingLog | internal/test/testclock/clock.go:227-248 | However ties are broken, the final state and every timer's number of expiries are the same |
| ClockSchedule.SmallStepsRefineAdvance | internal/test/testclock/clock.go:188-252 | After any legal order of expiries up to now + d, advancing over the rest ends where advancing by d ends, and the counts add up |
| ClockSchedule.StepExtends | internal/test/testclock/clock.go:188-202 | One step of the clock, to any of the timers that expire first, is one more entry of a legal order of expiries |
| ClockSchedule.StepsThenAdvance | internal/test/testclock/clock.go:188-252 | Any run of steps within reach of now + d, followed by an advance over the rest, reaches the state and the total count of Advance(d) |
| TestClock.AdvanceBySteps | internal/test/testclock/clock.go:179-252 | The loop over Next, Step and Advance on the objects: it ends, reaches the state of Advance(d), its steps are the count of Advance(d) and the last advance counts 0 |
| ClockSchedule.StepsExist | internal/test/testclock/clock.go:188-202 | Repeated stepping reaches a state with nothing left within reach |
| ClockSchedule.RunsAreSafe | internal/test/testclock/clock.go:147-323 | Over every run the clock never goes back, nothing pending is overdue, no timer is lost and tickers stay tickers |
| Walks.GroundedOrCyclic | internal/x509inspect/chain.go:99-112 | Following parents in a finite union ends at a root or enters a cycle |
| Walks.AllGroundedIffAcyclic | internal/x509inspect/chain.go:99-112 | Every parent walk ends if and only if the parent map has no cycle |
| ParentMaps.UnionCerts | internal/x509inspect/chain.go:290-302 | The first occurrence of each fingerprint, in order, without repetition |
| ParentMaps.FirstOccurrencesDedup | internal/x509inspect/chain.go:290-302 | The union repeats no fingerprint and loses none |
| ParentMaps.FirstOccurrencesAreFirst | internal/x509inspect/chain.go:290-302 | The union keeps the order of the input and the first certificate of each fingerprint |
| ParentMaps.BuildParentMap | internal/x509inspect/chain.go:239-260 | The map holds nothing but first possible parents, and one for every certificate that has any |
| ParentMaps.ParentAt | internal/x509inspect/chain.go:239-260 | In a union each certificate maps to its own first possible parent, and is absent exactly if there is none |
| ParentMaps.ParentMapUnique | internal/x509inspect/chain.go:239-260 | The list determines the parent map |
| CertChain.IdentifyLeaf | internal/x509inspect/chain.go:187-237 | The first SPIFFE leaf, else the first unclaimed non-CA certificate, else the first unclaimed one, else an error |
| CertChain.ClaimedFps | internal/x509inspect/chain.go:204-215 | Collects exactly the certificates that another one names as possible parent |
| CertChain.NoLeafIff | internal/x509inspect/chain.go:190-237 | No leaf is found exactly if there is no SPIFFE leaf and every certificate is claimed |
| CertChain.SpiffeLeafFirst | internal/x509inspect/chain.go:190-202 | If some certificate has a SPIFFE ID and is no CA, the leaf is the first one like that |
| CertChain.NoLeafMeansCycle | internal/x509inspect/chain.go:217-229 | On a non-empty union without a circle of possible parents a leaf is found |
| CertChain.WalkToRoot | internal/x509inspect/chain.go:96-117 | The walk ends and yields, turned around, a repeat-free chain along parent links ending in the leaf, whose head has no parent outside it |
| CertChain.Reverse | internal/x509inspect/chain.go:114-117 | Exchanging ends inwards reverses the list |
| CertChain.BuildChain | internal/x509inspect/chain.go:87-119 | Leaf, parent map and walk together, or the error |
| ChainFormat.ConvertCertsToChain | internal/x509inspect/chain.go:50-66 | The lines of the chain, or of the verified path, of the union of both inputs, or why there is none |
| ChainFormat.RenderChain | internal/x509inspect/chain.go:68-85 | One line for each certificate, indented by its position, with a SPIFFE ID for the leaf only |
| ChainFormat.Pools | internal/x509inspect/chain.go:133-145 | The self-signed certificates are roots, the others but the leaf intermediates, in union order |
| ChainFormat.ShortestPath | internal/x509inspect/chain.go:121-185 | The first verified chain turned around and the number of others as long, or the first of three errors that applies |
| ChainFormat.ShownIsPath | internal/x509inspect/chain.go:121-185 | What is shown leads from a self-signed certificate of the union over signatures to its leaf, all of it valid at the time |
| PathSearch.ShortestIffEqualLengths | internal/x509inspect/chain.go:151-185 | For every order in which verification may list chains the path shown is a shortest one, if and only if all valid chains of the union from the leaf to a root are equally long |
| PathSearch.OneSignerOneChain | internal/x509inspect/chain.go:151-185 | If no certificate has two possible signers, the union has at most one chain and the path shown is a shortest one |
| PathSearch.SearchLists | internal/x509inspect/chain.go:151-158 | A depth-first search, roots first and each pool in its order, terminates and lists exactly the ways to extend a chain to a root |
| PathSearch.SearchIsComplete | internal/x509inspect/chain.go:151-158 | For a leaf it lists exactly the verified chains that hold no subject and key twice |
| PathSearch.LongerPathShown | internal/x509inspect/chain.go:151-185 | Five certificates for which, at any time in their validity, that search has a path shown that is longer than another valid one |
| CertChain.ChainUnique | internal/x509inspect/chain.go:87-119 | Leaf and parent map leave only one chain |
| Certs.ParentIffMatches | internal/x509inspect/chain.go:264-277 | A possible parent is exactly one whose subject is the issuer's name and whose key identifier agrees, or, if an identifier is missing, that may sign and made the signature |
| Certs.ExtractSpiffeId | internal/x509inspect/certificate.go:197-206 | The first SPIFFE ID among the URIs, and none exactly if there is none |
| CertChain.ChainLinks | internal/x509inspect/chain.go:87-119 | Every link satisfies the parent test, with agreeing names, all members are in the union, and the chain is no longer than it |
| CertChain.HeadIsRootIffGrounded | internal/x509inspect/chain.go:99-112 | The head has no parent if and only if the leaf's parent walk ends |
| CertChain.OrderIndependent | internal/x509inspect/chain.go:87-119 | With one possible parent each and one candidate leaf, the result is the same for every order of the union |
| CertTree.BuildChildren | internal/x509inspect/tree.go:57-66 | The children of each certificate in union order |
| CertTree.ChildrenInvert | internal/x509inspect/tree.go:57-66 | Children are exactly the inverse of the parent map |
| CertTree.ChildrenInOrder | internal/x509inspect/tree.go:57-66 | Children stand in the order of the union |
| CertTree.CollectRoots | internal/x509inspect/tree.go:68-74 | The parentless certificates in union order |
| CertTree.RootsMembers | internal/x509inspect/tree.go:68-74 | A certificate is a root exactly if it has no parent |
| CertTree.RootsInOrder | internal/x509inspect/tree.go:68-74 | Roots stand in the order of the union |
| CertTree.TreeWriter.WriteTreeNode | internal/x509inspect/tree.go:103-133 | The recursion terminates, restores the indentation and appends the rendering of the node |
| CertTree.DfsShows | internal/x509inspect/tree.go:103-133 | Exactly the newly visited certificates are rendered, once each, for any children map and any visited set |
| CertTree.DfsArrivals | internal/x509inspect/tree.go:113-131 | Every arrival, one from the start and one per newly visited parent, is either rendered or noted as revisited |
| CertTree.TreeVisits | internal/x509inspect/tree.go:103-133 | A tree visits exactly the descendants of its root |
| CertTree.TreeShows | internal/x509inspect/tree.go:103-133 | Each descendant is shown once; the start is noted once if it is on a cycle and nothing else ever is |
| CertTree.DfsNests | internal/x509inspect/tree.go:126-132 | The parent of every rendered certificate can be read off the indentation |
| CertForest.ConvertCertsToTree | internal/x509inspect/tree.go:32-101 | The forest of the union, or the first unknown field as error |
| CertForest.BuildForest | internal/x509inspect/tree.go:57-100 | Children, roots, stand-in root and one tree per start with its own visited set |
| CertForest.ForestShows | internal/x509inspect/tree.go:68-100 | With a root, each certificate whose parent walk ends is rendered exactly once in all, no other is, and no revisit is noted |
| CertForest.ForestCoversIffAcyclic | internal/x509inspect/tree.go:68-100 | The forest shows the whole union if and only if the parent map is acyclic |
| CertForest.RootlessShows | internal/x509inspect/tree.go:75-86 | Without a root, exactly the descendants of the first certificate are rendered once each, and it is noted once exactly if it is on a cycle |
| CertForest.ForestNests | internal/x509inspect/tree.go:88-100 | Every tree starts unindented at its root and its indentation spells out the parent map |
| CertOrder.ForestInOrder | internal/x509inspect/tree.go:57-133 | The trees stand in the order of their roots in the union, and anywhere in a tree siblings are rendered in the order of the union, except that a start on a cycle comes before its own siblings |
| CertForest.ChainIsBranch | internal/x509inspect/tree.go:57-74 | If the leaf's parent walk ends, the chain starts at a root of the forest and descends through its children |
| CertForest.ChainDepth | internal/x509inspect/chain.go:70-85 | In the tree each certificate of the chain is indented by its position in the chain |
| X509Authority.CheckIsSvid | internal/x509inspect/inspector.go:145-208 | The reasons are exactly the broken rules, in the order of the rules and one for each disallowed usage listed; a certificate conforms exactly if it breaks none |
| X509Authority.MintedIsSvid | internal/x509authority/authority.go:65-139 | Every minted certificate breaks no rule and may not sign, is for the given ID and key and has their subject and key identifier, serves servers and clients, and its times are the backdated clock and the capped end, in whole seconds; its validity is never empty and never outlasts the issuer |
| X509Authority.MintedHasParent | internal/x509authority/authority.go:95-117 | Inspection links a minted certificate to its authority, by key identifier or by signature |
| X509Authority.MintsIff | internal/x509authority/authority.go:65-86 | Minting succeeds exactly for complete parameters before the authority's end, and otherwise reports the first defect |
| X509Authority.SubjectsDiffer | internal/x509authority/authority.go:96-100 | Different IDs have different subjects |
| JwtSvid.IsSvid | internal/jwtinspect/token.go:215-272 | The reasons are exactly the broken rules, in the order of the rules, with null and other values of the type header told apart; a token without claims is an error |
| JwtSvid.MintedClaims | internal/jwtauthority/authority.go:84-122 | A minted token has one header with the authority's algorithm and key ID, the claims asked for and no more, and encodes the second of its issue and of the earlier of TTL and cap |
| JwtSvid.MintsIff | internal/jwtauthority/authority.go:84-100 | Minting succeeds exactly for acceptable parameters before the cap, and otherwise reports the first defect |
| JwtSvid.NewAuthorityIff | internal/jwtauthority/authority.go:43-82 | An authority needs exactly a key ID, an end and a supported key, and its algorithm is that of the key |
| JwtSvid.MintedAcceptedIff | internal/jwtsvid/validate.go:15-93 | A minted token is accepted, with its ID and claims, exactly by bundles that hold its key under its key ID in the ID's trust domain, for audiences it was minted for, and between its issue and the earlier of TTL and cap, give or take the skew |
| JwtSvid.MintedExpires | internal/jwtauthority/authority.go:125-134 | Beyond the tolerated skew no token outlives its TTL or its cap |
| JwtSvid.MintedIsSvidIff | internal/jwtauthority/authority.go:84-134 | A minted token breaks no rule exactly if its expiry does not fall in the zero second |
| JwtSvid.AcceptedIff | internal/jwtsvid/validate.go:15-93 | A token is accepted exactly if it has one header, a supported algorithm, a SPIFFE subject, a signature by the key that the bundle of the subject's trust domain holds under its key ID, and current claims covering the audience |
| JwtSvid.RefusedIff | internal/jwtsvid/validate.go:15-93 | A token is refused with an error exactly if that is the first of the checks, in their order, that fails |
| JwtSvid.MissingTypeAcceptedIff | internal/jwtinspect/token.go:231-245 | A token none of whose headers gives a type meets the type rule exactly if one of them has extra fields |
| JwtSvid.UntypedToken | internal/jwtinspect/token.go:231-245 | A minted token without its type header is validated like the minted one but breaks the type rule, and no other |
| KeyIds.DigitsRoundTrip | internal/wlapi/trustdomain.go:146-146 | The decimal text of the counter reads back as the number |
| KeyIds.FirstKeyId | internal/wlapi/trustdomain.go:146-146 | The ID of the first key, spelt out |
| KeyIds.CounterWraps | internal/wlapi/trustdomain.go:24-24 | After n increments the counter is n wrapped to a signed 32-bit number |
| KeyIds.KeyIdCollidesIff | internal/wlapi/trustdomain.go:24-24 | Two keys share an ID exactly if their numbers differ by a multiple of 2^32 |
| TrustDomains.JwtKeyCounter.Add | internal/wlapi/trustdomain.go:146-146 | The n-th increment yields n wrapped to 32 bits |
| TrustDomains.TrustDomain.Start | internal/wlapi/trustdomain.go:72-78 | After the initial rotations neither authority list is empty |
| TrustDomains.TrustDomain.RotateX509Authority | internal/wlapi/trustdomain.go:105-134 | One self-signed authority is appended and nothing else changes |
| TrustDomains.TrustDomain.RotateJWTAuthority | internal/wlapi/trustdomain.go:136-153 | One authority with the next key ID is appended and nothing else changes |
| TrustDomains.NewAuthorityMints | internal/wlapi/trustdomain.go:112-125 | A new authority is a self-signed CA named after the domain, backdated by a second, that mints exactly until its TTL is over, less a fraction of a second |
| TrustDomains.RotationsAppend | internal/wlapi/trustdomain.go:105-153 | A rotation adds one authority with the given key at the end and leaves everything else; a JWT authority records the end of its TTL |
| TrustDomains.TrustDomain.MintX509SVID | internal/wlapi/trustdomain.go:155-184 | Without interference: the last authority signs, exactly for complete parameters and until its certificate ends; an error otherwise |
| TrustDomains.TrustDomain.MintJWTSVID | internal/wlapi/trustdomain.go:203-225 | Without interference: the last authority signs under a cap of a full TTL from the clock, whatever end it recorded, exactly for acceptable parameters before that cap; an error otherwise |
| TrustDomains.SignX509Answers | internal/wlapi/trustdomain.go:164-183 | For any snapshot: the last authority of it signs with its key, exactly for complete parameters and until its certificate ends |
| TrustDomains.SignJwtAnswers | internal/wlapi/trustdomain.go:212-224 | For any snapshot: the last authority of it signs under the recomputed cap, and the token ends with the earlier of TTL and that cap |
| TrustDomains.TrustDomain.X509Bundles | internal/wlapi/trustdomain.go:193-201 | All X.509 authorities in order |
| TrustDomains.TrustDomain.JWTBundles | internal/wlapi/trustdomain.go:227-242 | The JWT authorities by key ID, the last one winning |
| TrustDomains.JwtBundleLosesNothingIff | internal/wlapi/trustdomain.go:227-231 | The bundle has all authorities if and only if no two share a key ID |
| Interleavings.AuthoritiesOnlyGrow | internal/wlapi/trustdomain.go:127-151 | Over every run the authority lists only grow at the end |
| Interleavings.StepIsLocal | internal/wlapi/trustdomain.go:105-153 | A rotation adds one authority, with its validity, to its own domain; no other step changes any domain |
| Interleavings.RunKeepsInv | internal/wlapi/trustdomain.go:105-225 | Every interleaving keeps, also between a JWT rotation's taking its number and its appending: well-formed authorities, distinct key IDs below 2^32 rotations, snapshots that are prefixes, and issued SVIDs whose issuer stays listed |
| Interleavings.InitialWorldOk | internal/wlapi/wlapi.go:21-33 | This holds at the start, for any number of trust domains |
| Guarantees.PanicsIffSnapshotEmpty | internal/wlapi/trustdomain.go:155-164 | A mint that passes the unlocked check panics if and only if its snapshot was taken while there was no authority |
| Guarantees.JwtPanicsIffSnapshotEmpty | internal/wlapi/trustdomain.go:203-212 | The same for JWT mints |
| Guarantees.X509LatestAnswers | internal/wlapi/trustdomain.go:155-184 | Whatever happens between, a mint is signed by the authority that was the last of its domain when its snapshot was taken |
| Guarantees.JwtLatestAnswers | internal/wlapi/trustdomain.go:203-225 | The same for JWT mints, which in every run succeed exactly for acceptable parameters before the recomputed cap |
| Guarantees.RaceExists | internal/wlapi/trustdomain.go:155-164 | From the start of the program, a run in which a rotation between snapshot and check makes the mint panic, for any domain |
| Guarantees.JwtRaceExists | internal/wlapi/trustdomain.go:203-212 | The same for a JWT mint |
| Guarantees.NoMintPanics | internal/wlapi/trustdomain.go:155-225 | If each snapshot is taken after the first rotation of its own domain, no interleaving makes any mint index an empty snapshot; the other domains may still be empty |
| Guarantees.RotatingFirstIsSafe | internal/wlapi/trustdomain.go:72-101 | From the start of the program with any number of domains, each rotating before it mints: no mint ever panics and none fails its check for an authority |
| Guarantees.IssuedX509IsSound | internal/wlapi/trustdomain.go:155-201 | An issued certificate breaks no rule, has NotBefore < NotAfter <= the issuer's NotAfter, verifies under its issuer, and its issuer is in every later bundle |
| Guarantees.BundlesLoseNothing | internal/wlapi/trustdomain.go:136-153 | Below 2^32 rotations over all domains every bundle holds all its authorities under their own IDs |
| Guarantees.KeyIDsKeepTheirKeys | internal/wlapi/trustdomain.go:227-242 | A published key ID stands for the same key in every later bundle |
| Guarantees.JwtRoundTrip | internal/wlapi/trustdomain.go:203-242 | A minted token is accepted against every later state's bundles if and only if its ID is of the minting domain, the audience is one it was minted for and the time is between issue and end; it comes back with that ID and its claims |
| Guarantees.ForeignTokenExists | internal/wlapi/trustdomain.go:203-225 | From the start of the program, a run that issues a token for any given ID outside the minting domain, which the bundles then never accept |
| Guarantees.IssuedX509Chain | internal/x509inspect/chain.go:87-119 | An issued certificate inspected with its domain's bundle shows exactly its issuer and itself, after any number of rotations |
| Workload.FetchX509SVID | internal/wlapi/workload.go:84-130 | Whatever the instants, authorities, keys, sends and waits it meets: one freshly minted certificate per round up to the round that ends the stream, which only a cancelled client ends without an error |
| Workload.OutcomeUnique | internal/wlapi/workload.go:84-130 | These surroundings determine what is sent and why the stream ends |
| Workload.RunningIff | internal/wlapi/workload.go:91-129 | The stream goes on exactly as long as every round finds an authority that has not expired, rotated or not, and nothing else fails |
| Workload.SentAreSvids | internal/wlapi/workload.go:91-115 | Every certificate sent breaks no rule, is for the workload's ID and the fresh key, and does not outlast the authority of its round |
| Workload.StreamLength | internal/wlapi/workload.go:91-129 | With one authority and nothing failing, exactly ceil((NotAfter - start) / RotateAt) certificates are sent and the stream ends because the authority has expired, unless the rounds end before |
| Workload.OverlapCovers | internal/wlapi/workload.go:91-129 | Whatever authorities and waits the rounds meet: if each certificate's end is a second beyond the next send, everything from the first send to the last end is covered |
| Workload.CoverageIff | internal/wlapi/workload.go:91-129 | Every instant until the authority ends is covered if and only if each certificate lasts until the next send and the last one to the end, for any start and durations |
| Workload.GapAfter | internal/wlapi/workload.go:91-129 | If a certificate does not last, there is an uncovered instant, the one after its end or that of its own send |
| Workload.WholeDurationsCoverageIff | internal/wlapi/workload.go:91-129 | With durations in whole seconds and a start f past a second: covered if and only if RotateAt + f <= TTL + 1 ns or the first certificate already lasts to the end of the authority |
| Workload.WholeCoverageIff | internal/wlapi/workload.go:91-129 | The same for f = 0: RotateAt <= TTL or the first certificate already lasts that long |
| Workload.RotatingAtTtl | internal/wlapi/workload.go:91-129 | With RotateAt = TTL and an authority that lasts longer, everything is covered exactly if the start is at most 1 ns past a second; otherwise a gap of less than a second follows the first certificate |
| Streams.SignerMints | internal/wlapi/workload.go:102-102 | A round of the stream is a mint without interference: the last authority of the domain signs, or there is none |
| Streams.SentVerifiesLater | internal/wlapi/workload.go:91-115 | Whenever the domain rotates, every certificate sent verifies under an authority in the domain's bundle, from its round on in every later state |
| Streams.GoesOnIff | internal/wlapi/workload.go:91-129 | If only minting can fail, the stream goes on exactly as long as the last authority of the domain at each round has not expired |

## Left out

- The clock's `Block`, its condition variable and the wall-clock timeout, and `Since`; no other operation depends on them.
- Overflow and saturation of Go durations; times are unbounded.
- Calling a ticker's inner timer directly: `TestTimer.Reset` is modelled for one-shots, as clients can only reach a ticker through `Ticker.Reset`.
- Workload.CoverageIff: is for exact waits, no working time and one authority; `Workload.OverlapCovers` is a sufficient condition without these.
- How `Certificate.Verify` searches: which chains it lists, and in which order, is a parameter that is only assumed to list signed chains to the given roots that are valid at the time. Name constraints, path lengths and the limit on signature checks are not modelled. `PathSearch.Search` is one such search.
- The note about alternate paths of equal length that `shortestPath` prints; their number is modelled.
- The labels of rendered certificates, colours, JSON, YAML and summary output, and which fields a tree shows.
- `Bundle` for federation, which lists the same authorities as the two bundle methods, and its HTTP server.
- Serial numbers, token IDs, the contents of the subject name beyond its being non-empty and particular to the ID.
- gRPC, sockets, configuration files, watchers, key generation and PEM, DER and JOSE encodings.
