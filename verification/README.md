# LakeCat: evidence and governance, verified

LakeCat is an Iceberg REST catalog. Besides tables and views it keeps *evidence*: hash-chained receipts of every
view change, grants that bind a planned scan to the policies it was planned under, a catalog graph for QueryGraph,
and hand-off bundles that a command-line verifier checks. This project models that logic in Dafny and proves what it
guarantees.

The parts, each in its own modules:

* **View receipts** (`ReceiptSchema`, `ReceiptVerifier`, `ReceiptHistory`, `ReceiptProducer`, `ReceiptGroups`,
  `AcceptedViews`, `ReceiptEvidence`, `ReceiptStore`). The verifier walks receipt chains nested in groups, filling
  per-view sets as it goes; the producer cuts chains at accepted receipts, gathers them into groups and writes them
  with the views and the dropped views' receipts; the store writes the receipts in the first place, and the service
  sorts them into the chains it lists. The content digest is a parameter. It is not assumed to be injective: each
  binding theorem ends in "or these very values collide".
* **Field ids** (`FieldIds`, `FieldIdLaws`, `FieldPlaces`, `SourceIds`). A mutually recursive walk gives the nodes
  of a schema tree fresh ids from a saturating counter; a second walk renames the references in the partition spec
  and the sort order.
* **Read restrictions** (`Columns`, `Policy`, `PolicyReaders`, `DocumentLaws`, `PolicyLaws`, `RestrictionCodec`,
  `Projection`). ODRL documents fold into allowed columns, a row predicate, a purpose and a credential lifetime.
  Columns intersect across documents and are unioned inside one; a direct key pre-empts constraints for columns and
  row predicates (section 2.5 of the W3C ODRL Information Model 2.2 describes constraints themselves).
* **Authorization and grants** (`PolicyBindings`, `Authorization`, `AuthorizationLaws`, `GovernedScan`, `GrantLaws`,
  `Engines`, `GrantProtocol`, `GrantRuns`, `GrantProgress`). How a restriction travels through an authorization
  receipt, when credentials are withheld, when a governed scan grant is issued and when it revalidates.
  `GrantProtocol` is a state machine in which commits, drops, restores, replacements, policy rewrites, rule changes,
  and the separate steps of preparing, authorizing, loading and planning a scan interleave freely; a revalidation's
  four reads may fall at four different moments of a run. `GrantRuns` says exactly when it succeeds, and so what
  suspends a grant, what revives it and what kills it; `GrantProgress` what the steps bring about, beginning with
  the grant itself.
* **Names and the graph** (`Names`, `CatalogGraph`, `GraphLaws`, `GraphContents`, `GraphCounts`) and **import
  plans** (`ImportPlan`).
* **Markdown reflow** (`Reflow`, `ReflowBlocks`): the line machine that turns each prose paragraph into one line.

`Json`, `Text` and `Collections` hold the JSON values, string functions and counting arguments all of them use. Code
that works by loops and updated state is a method or a class here, proved equal to a specification function or
predicate; the laws are lemmas about that specification. Lemmas whose names end in `Exactly` say in plain terms,
field by field or word by word, what such a specification comes to. Error returns are `None` or `false`; their
messages and kinds are not modelled.

Some results say where the code does *not* do what one might expect, and exactly when it does:

* A reference to no schema field is left alone, but may afterwards name a field, namely when it lies among the new
  ids (`SourceIds.UnmappedReferenceKept`).
* Table stable ids and namespace paths do not tell `["a.b"]` from `["a", "b"]` (`Names.StableIdDetermines`,
  `Names.PathsCollide`); storage keys do.
* The graph has a dangling edge exactly when some table or view lies in another warehouse
  (`GraphCounts.ClosedIffOneWarehouse`); a chain cut at an accepted receipt is valid exactly when that receipt is an
  upsert with the accepted version and chain hash (`ReceiptProducer.CutAgreesWithVerifier`).
* A chain group the producer writes is accepted exactly when, besides its chains being valid, no listed or accepted
  chain hash lacks a produced chain (`ReceiptGroups.ProducedGroupExact`).
* The evidence check never compares an accepted view's receipt hash and version with the chain that covers the view
  (`AcceptedViews.UntiedEvidenceIsAccepted`); `AcceptedViews.HeadExactly` says when they are those of its head, and
  `AcceptedViews.ProducedViewTied` that they are wherever the producer cut a chain for the view.
* What the producer writes is accepted as a whole exactly under the conditions of
  `ReceiptEvidence.ProducedProofExact`; closed schemas never stand in the way, and coverage of a view in a listed
  namespace fails only where another view's chain carries its accepted chain hash (`ReceiptEvidence.ScopeCovers`).
* The store sorts an upsert before a drop of the same version and time, the service a drop before an upsert. A drop
  recorded at the very time of its upsert is fine for the store and listed as unverified (`ReceiptStore.TiedDrop`);
  a chain is verified exactly when every drop is recorded strictly later than its upsert
  (`ReceiptStore.RunExactly`), and a drop recorded earlier ends the view's history for good
  (`ReceiptStore.StuckForGood`).
* Not every engine lets a grant revalidate. Under engines that echo principal, action, table and context a stored
  grant revalidates exactly when, besides table and restriction, the engine's verdict on the revalidation's own
  request is its verdict on the scan's. Those two requests never have the same context (`GrantLaws.RequestsDiffer`):
  only the second names the grant. The local allow-all engine decides by scope alone, so its grants do revalidate
  (`GrantRuns.ScopeDecides`). TypeSec hashes the context into its verdict, so under TypeSec no grant ever
  revalidates, short of a digest collision, not even one whose table, policies and rules nobody touched
  (`Engines.TypeSecNeverRevalidates`, `GrantRuns.TypeSecRun`). Withholding credentials does not depend on this
  (`AuthorizationLaws.CredentialGate`).
* A commit kills every grant on the table's version for good, except that a table put in its place with the very
  record the grant binds revives it (`GrantProtocol.CommitKills`, `GrantRuns.ReplacementDecides`).
* `crates/lakecat-service/src/governed_scan.rs:70-72` documents a fresh policy decision digest that is distinct from
  the original evidence. By line 315 of the same file the two are always equal (`GrantLaws.SuccessShows`); the model
  follows the code.

## Model

| member | source | states |
|---|---|---|
| ReceiptVerifier.CheckReceipt | crates/lakecat-cli/src/verify_receipts.rs:710-786 | one receipt is accepted iff its stable id, warehouse, namespace and name are the chain's, it carries its own digest, and it starts the history or follows the receipt before it |
| ReceiptVerifier.Verification.VerifyReceipts | crates/lakecat-cli/src/verify_receipts.rs:696-809 | the receipt loop accepts iff the receipts form a hash-linked history ending in the declared head, and then records exactly their hashes for the view |
| ReceiptVerifier.Verification.VerifyChain | crates/lakecat-cli/src/verify_receipts.rs:599-694 | a chain is accepted iff it is valid, in its group's scope, declared, and not a repetition of a chain of the group; the recorded sets grow by exactly its hashes |
| ReceiptVerifier.Verification.VerifyGroupChains | crates/lakecat-cli/src/verify_receipts.rs:562-590 | the chain loop accepts iff all chains can be read and are valid with different hashes |
| ReceiptVerifier.Verification.VerifyGroup | crates/lakecat-cli/src/verify_receipts.rs:257-328 | a group is accepted iff its counts agree, its chains are valid and distinct, and its receipt hashes are those of its chains |
| ReceiptVerifier.VerifyGroups | crates/lakecat-cli/src/verify_receipts.rs:255-328 | after all groups the per-view sets hold exactly the hashes of that view's chains and receipts |
| ReceiptVerifier.Recorded | crates/lakecat-cli/src/verify_receipts.rs:645-649 | what accumulates under a view is what was there plus exactly the hashes of its own chains |
| ReceiptVerifier.ReadViews | crates/lakecat-cli/src/verify_receipts.rs:152-202 | the accepted views are read in order, or one of them is malformed |
| ReceiptVerifier.ReadTombstones | crates/lakecat-cli/src/verify_receipts.rs:204-246 | tombstone receipt hashes are collected by view from all records |
| ReceiptVerifier.CoversViews | crates/lakecat-cli/src/verify_receipts.rs:329-338 | accepted iff every accepted view's chain hash is one of a chain of that view |
| ReceiptVerifier.CoversTombstones | crates/lakecat-cli/src/verify_receipts.rs:339-348 | accepted iff every view's tombstone hashes are receipt hashes of that view's chains |
| ReceiptVerifier.TombstoneCoverage | crates/lakecat-cli/src/verify_receipts.rs:204-348 | covering the collected sets view by view is covering every tombstone record |
| ReceiptVerifier.RequireViewReceiptChainEvidence | crates/lakecat-cli/src/verify_receipts.rs:135-351 | the whole imperative check decides exactly the declarative meaning of the evidence; what that is for a chain, `ReceiptHistory.ChainExactly` says field by field |
| ReceiptHistory.ChainExactly | crates/lakecat-cli/src/verify_receipts.rs:599-809 | a chain is valid iff its id is made of its warehouse, namespace and name, every receipt names the same four, has a known operation and its own digest and links to the one before, and head, count, tombstone and chain hash are those of the receipts |
| ReceiptHistory.ViewsShareNoReceipt | crates/lakecat-cli/src/verify_receipts.rs:717-746 | valid chains of different views share no receipt hash, short of a collision |
| ReceiptHistory.ReceiptHashNamesView | crates/lakecat-cli/src/verify_receipts.rs:696-809 | within accepted evidence equal receipt hashes mean the same view, short of a collision |
| ReceiptHistory.ReceiptPreimageInjective | crates/lakecat-cli/src/verify_receipts.rs:811-872 | the digested value determines every field of a receipt, optional ones included |
| ReceiptHistory.HistoryBinding | crates/lakecat-cli/src/verify_receipts.rs:696-872 | two accepted histories whose last receipt hashes are equal are equal receipt by receipt, or contain a digest collision |
| ReceiptHistory.NoRepeatedReceiptHash | crates/lakecat-cli/src/verify_receipts.rs:696-872 | no receipt hash repeats in an accepted history, short of a collision |
| ReceiptHistory.ChainHashBinding | crates/lakecat-cli/src/verify_receipts.rs:889-920 | equal chain hashes of valid chains mean equal chains and histories, short of a collision |
| ReceiptHistory.VersionCountsUpserts | crates/lakecat-cli/src/verify_receipts.rs:751-780 | the version after receipt i is the number of upserts so far, up to 64-bit saturation |
| ReceiptHistory.VersionsNeverDecrease | crates/lakecat-cli/src/verify_receipts.rs:761-780 | versions never decrease along a history |
| ReceiptHistory.AcceptedChainArithmetic | crates/lakecat-cli/src/verify_receipts.rs:655-692 | in an accepted chain saturation never happens, the head version is the total upsert count, and tombstoned holds iff the last receipt is a drop |
| Collections.Pigeonhole | crates/lakecat-cli/src/verify_receipts.rs:545-550 | distinct elements of a set, as many as it has, exhaust it |
| ReceiptHistory.GroupExact | crates/lakecat-cli/src/verify_receipts.rs:490-597 | an accepted group declares exactly its chains' hashes, by counting, and exactly their receipts' hashes |
| ReceiptHistory.AcceptedViewHasValidChain | crates/lakecat-cli/src/verify_receipts.rs:329-338 | every accepted view has a valid chain with its stable id and chain hash in the evidence |
| ReceiptHistory.TombstoneHashHasReceipt | crates/lakecat-cli/src/verify_receipts.rs:339-348 | every tombstone hash is the hash of a receipt in a valid chain of the same view |
| ReceiptHistory.RequireBootstrapHashesMatchViews | crates/lakecat-cli/src/verify_receipts.rs:74-133 | accepted iff the bootstrap and the proof list the same accepted hashes, without repetition although only lengths and sets are compared |
| ReceiptHistory.RequireTombstoneExpectedVersions | crates/lakecat-cli/src/verify_receipts.rs:3-72 | accepted iff every view has a version and every tombstone expects the version its view has |
| ReceiptProducer.CompactViewReceiptChains | crates/lakecat-cli/src/replay_evidence.rs:519-593 | the producer's loops compute the verified chains followed by the cut ones; `ProducedExactly` and `CutExactly` say which these are |
| ReceiptProducer.ProducedExactly | crates/lakecat-cli/src/replay_evidence.rs:519-593 | every chain listed as verified is produced, dropped views' too, in listing order and ahead of every other; and every other produced chain is the cut for a verified view |
| ReceiptProducer.CutExactly | crates/lakecat-cli/src/replay_evidence.rs:535-589 | a cut is made iff the view has accepted hashes and version and the first chain listed for it holds the accepted receipt; it is that chain up to the first such receipt, under the accepted version and chain hash |
| ReceiptProducer.CompactReceiptRead | crates/lakecat-cli/src/replay_evidence.rs:615-631 | the verifier reads a compact receipt back to exactly its fields, and iff these are well-formed |
| ReceiptProducer.CutAgreesWithVerifier | crates/lakecat-cli/src/replay_evidence.rs:547-590 | a chain cut out of a valid one is accepted iff the cut receipt is an upsert and the accepted version and chain hash are those of the prefix |
| ReceiptProducer.PositionIsUnique | crates/lakecat-cli/src/replay_evidence.rs:566-572 | the position search finds the only receipt with the accepted hash, short of a collision |
| ReceiptProducer.AddedHashesAreNew | crates/lakecat-cli/src/replay_evidence.rs:535-592 | chains appended by the loop never repeat a chain hash already present |
| ReceiptProducer.AcceptedHashesAreListed | crates/lakecat-cli/src/replay_evidence.rs:535-592 | every verified view whose accepted receipt can be found has its accepted chain hash listed at the end |
| ReceiptProducer.CompactChainRead | crates/lakecat-cli/src/replay_evidence.rs:595-631 | the verifier reads a compact chain back to what it was made of, and exactly when its fields are well-formed |
| ReceiptGroups.GatherGroup | crates/lakecat-cli/src/replay_evidence.rs:459-497 | the loops of one group gather the listed hashes, the accepted hashes of the views in its scope and those of its chains |
| ReceiptGroups.GroupRead | crates/lakecat-cli/src/replay_evidence.rs:496-507 | the verifier reads a produced group back exactly when its header is proper and it has a chain |
| ReceiptGroups.ProducedGroupExact | crates/lakecat-cli/src/replay_evidence.rs:459-509 | a produced group is accepted iff header, chains and receipt hashes are right and no declared chain hash lacks a chain, although only numbers and inclusions are compared |
| ReceiptGroups.StrayHasNoCut | crates/lakecat-cli/src/replay_evidence.rs:464-490 | an accepted hash lacks a chain only where no chain could be cut for its view |
| ReceiptGroups.ScopeIsLife | crates/lakecat-cli/src/replay_evidence.rs:476-488 | a view is in a group's scope iff the first event of its life, whichever kind that is, lies in the group's warehouse and namespace |
| AcceptedViews.AcceptedReceiptUnchecked | crates/lakecat-cli/src/verify_receipts.rs:180-200 | accepted evidence stays accepted under any other accepted receipt hash and version of a view |
| AcceptedViews.UntiedEvidenceIsAccepted | crates/lakecat-cli/src/verify_receipts.rs:329-338 | beside any accepted evidence there is accepted evidence with the same chains whose view claims another receipt than its chain's head |
| AcceptedViews.CoveringChainIsUnique | crates/lakecat-cli/src/verify_receipts.rs:329-338 | one chain only covers an accepted view, short of a collision |
| AcceptedViews.HeadExactly | crates/lakecat-cli/src/verify_receipts.rs:655-692 | the accepted receipt is the covering chain's head iff the hash is the last receipt's, that receipt is an upsert and the version is the number of upserts |
| AcceptedViews.ProducedViewTied | crates/lakecat-cli/src/replay_evidence.rs:534-592 | a produced chain of a view either was listed as it is or has the accepted receipt as its head |
| ReceiptEvidence.ViewReplayEvidence | crates/lakecat-cli/src/replay_evidence.rs:388-517 | the producer's loops write the whole evidence as a function of events and bootstrap; none iff a verified view has no event |
| ReceiptEvidence.ViewRead | crates/lakecat-cli/src/verify_receipts.rs:152-202 | the verifier reads a produced view record as the accepted view iff its event places it, shows the accepted version and carries proper hashes |
| ReceiptEvidence.TombstoneRead | crates/lakecat-cli/src/verify_receipts.rs:204-246 | a produced tombstone record is read back iff it names a view and its hash lists are proper |
| ReceiptEvidence.FirstDropDecides | crates/lakecat-cli/src/replay_evidence.rs:436-445 | a receipt listing expects the version that the first drop event of its view carries, and none where there is no drop |
| ReceiptEvidence.ExpectedVersionsExact | crates/lakecat-cli/src/verify_receipts.rs:3-72 | the expected-version check passes on produced evidence iff every verified view has a version and every receipt listing is of a verified view dropped at that version |
| ReceiptEvidence.BootstrapExact | crates/lakecat-cli/src/verify_receipts.rs:74-133 | the bootstrap check passes on produced evidence iff exactly the accepted receipts are listed and no two views share one |
| ReceiptEvidence.EvidenceIsClosed | crates/lakecat-cli/src/verify_receipts.rs:135-138 | produced evidence always has closed schemas, at every depth |
| ReceiptEvidence.NothingForeign | crates/lakecat-cli/src/verify_receipts.rs:135-138 | accepted evidence has no member, at any depth, that the producer would not write there |
| ReceiptEvidence.ProducedProofExact | crates/lakecat-cli/src/verify_proof.rs:748-750 | the three checks together accept what the producer writes iff versions, drops, listed receipts, views and every chain group are right, all told of the events and the bootstrap |
| ReceiptEvidence.ScopeCovers | crates/lakecat-cli/src/verify_receipts.rs:329-338 | a view whose namespace was listed is covered unless a valid chain of another view carries its accepted chain hash |
| ReceiptStore.SortedExactly | crates/lakecat-store/src/records.rs:1063-1072 | sorting a view's receipts gives back the order of writing if every drop is in order, and no chain at all otherwise; for both ways of breaking ties |
| ReceiptStore.StoreAcceptsExactly | crates/lakecat-store/src/records.rs:1054-1117 | the store's own check passes iff no drop is recorded before its upsert |
| ReceiptStore.RunIsSound | crates/lakecat-store/src/memory.rs:1017-1272 | in every run of upserts and drops, whatever the clock shows, the receipts as written are one hash-linked chain, and the current record is the last upsert's |
| ReceiptStore.UpsertExactly | crates/lakecat-store/src/memory.rs:1017-1062 | an upsert on a sound log that is in order makes the given view current at the next version and appends one receipt with its digest, linked to the last; otherwise nothing changes |
| ReceiptStore.DropExactly | crates/lakecat-store/src/memory.rs:1228-1272 | a drop of a current view appends one receipt with that view's version and digest, linked to the last, and leaves no current record; without one nothing changes |
| ReceiptStore.StuckForGood | crates/lakecat-store/src/memory.rs:1017-1062 | after a drop recorded before its upsert no operation changes the view again |
| ReceiptStore.ListedExactly | crates/lakecat-service/src/responses.rs:410-512 | receipts are listed iff no drop is earlier than its upsert, and as verified iff every drop is strictly later |
| ReceiptStore.VerifierAcceptsExactly | crates/lakecat-cli/src/verify_receipts.rs:599-809 | the listed chain is accepted by the verifier iff every drop is strictly later than its upsert and every author has a name |
| ReceiptStore.RunExactly | crates/lakecat-service/src/responses.rs:410-512 | for every run of the store: when a view's receipts are listed, listed as verified, and accepted |
| ReceiptStore.TiedDrop | crates/lakecat-service/src/responses.rs:424-433 | a drop at the time of its upsert passes the store's check and is listed as unverified |
| FieldIds.Assigner.AssignType | crates/lakecat-core/src/sail.rs:306-327 | one type is rebuilt with fresh ids, the counter advances by its node count, the map remembers its old ids |
| FieldIds.Assigner.AssignTypeId | crates/lakecat-core/src/sail.rs:329-346 | one list, key or value node gets the next id before its children, and its old id is remembered |
| FieldIds.Assigner.AssignFields | crates/lakecat-core/src/sail.rs:348-368 | the fields of a struct are visited in order; what is no object is skipped |
| FieldIds.AssignFreshFieldIds | crates/lakecat-core/src/sail.rs:305-376 | the two recursive passes terminate and return the renumbered schema, the saturating count and the old-to-new map |
| FieldIdLaws.FreshSchemaLaws | crates/lakecat-core/src/sail.rs:305-376 | pre-order nodes carry consecutive ids from 1, nothing but ids changed, and a second run changes nothing |
| FieldIdLaws.LastColumnId | crates/lakecat-core/src/sail.rs:370-376 | the last column id bounds all ids iff the node count is below the largest 64-bit integer; it then is that count and the largest id |
| FieldIdLaws.SecondRunMapsIdentically | crates/lakecat-core/src/sail.rs:305-376 | the map of a second run is the identity on the ids in use |
| FieldIdLaws.RememberedLast | crates/lakecat-core/src/sail.rs:336-342 | with duplicate old ids the last pre-order node wins |
| FieldPlaces.NodesAreNumbered | crates/lakecat-core/src/sail.rs:305-376 | the node at any place of a schema has a fresh id between 1 and the number of nodes, and its old id is the one listed at that number |
| FieldPlaces.EveryNumberIsANode | crates/lakecat-core/src/sail.rs:305-376 | every number up to the number of nodes is the fresh id of the node at some place |
| FieldPlaces.DocumentOrder | crates/lakecat-core/src/sail.rs:329-368 | of two nodes the one that comes first in the document, a node before what is inside it, has the smaller fresh id |
| SourceIds.RewriteSourceIds | crates/lakecat-core/src/sail.rs:378-397 | the rewriting walk computes the renaming of a whole document |
| SourceIds.RewrittenPlace | crates/lakecat-core/src/sail.rs:378-397 | what the renaming leaves at every path of the document |
| SourceIds.RewriteChangesOnlyReferences | crates/lakecat-core/src/sail.rs:378-397 | every path survives and only known references change |
| SourceIds.InitialTableMetadata | crates/lakecat-core/src/sail.rs:253-292 | new metadata holds the stored schema, the renamed spec and order or `{"spec-id": 0, "fields": []}` and `{"order-id": 0, "fields": []}`, and as current ids the 64-bit integers that the request states under `schema-id`, `spec-id` and `order-id`, else 0 |
| SourceIds.RenamingPreservesReferences | crates/lakecat-core/src/sail.rs:253-280 | a reference, at any depth, to the last node with its id names that same node afterwards, and no other |
| SourceIds.DistinctReferencesPreserved | crates/lakecat-core/src/sail.rs:253-280 | with distinct old ids every reference to a schema node keeps naming exactly that node |
| SourceIds.UnmappedReferenceKept | crates/lakecat-core/src/sail.rs:381-385 | a reference to no node is left alone, and names a node afterwards iff it lies among the new ids |
| Columns.DedupColumns | crates/lakecat-security/src/lib.rs:527-549 | both branches return the first-occurrence subsequence, whatever the length |
| Columns.RetainAllowedColumns | crates/lakecat-security/src/lib.rs:557-572 | both branches return the same filter, whatever the length |
| Columns.SameColumns | crates/lakecat-security/src/lib.rs:527-549 | removing repetitions keeps members and order and leaves no duplicate |
| Columns.RetainTwice | crates/lakecat-security/src/lib.rs:551-572 | retaining by one list and then another is retaining by their intersection |
| Columns.RetainedInOrder | crates/lakecat-security/src/lib.rs:557-572 | a list is what its own members retain iff it is an in-order sublist |
| Policy.ColumnsFromOdrl | crates/lakecat-security/src/lib.rs:201-243 | the columns one document declares, or an error; `DocumentLaws.DirectColumnsPreempt` and `ColumnsAreUnited` say what they are |
| Policy.PredicateFromOdrl | crates/lakecat-security/src/lib.rs:245-300 | the conjunction of the predicates one document declares |
| Policy.PurposeFromOdrl | crates/lakecat-security/src/lib.rs:302-334 | the one purpose a document declares, or a conflict |
| Policy.TtlFromOdrl | crates/lakecat-security/src/lib.rs:336-381 | the least lifetime a document declares |
| Policy.FromOdrlPolicies | crates/lakecat-security/src/lib.rs:124-163 | the loop over documents computes the composed restriction or fails where one document does |
| PolicyReaders.StringListExactly | crates/lakecat-security/src/lib.rs:464-510 | a value lists columns iff it is a non-blank string, a non-empty array of such, or an object with such an array as `@list`, where an object's `@value` may stand for a string; the columns are exactly those strings, each once, in the order of first occurrence |
| PolicyReaders.NumbersExactly | crates/lakecat-security/src/lib.rs:517-525 | a lifetime is read iff it is a 64-bit number, or an `@value` that is one or spells one in decimals, possibly after zeros and a plus sign |
| PolicyReaders.LeftNamesExactly | crates/lakecat-security/src/lib.rs:413-425 | a constraint is on an operand iff the first left operand present, under its three spellings, is that name or has it as `@id` |
| PolicyReaders.ComparesExactly | crates/lakecat-security/src/lib.rs:383-411 | its operator is supported iff the first one present is one of the given names, bare or with the ODRL prefix or IRI |
| PolicyReaders.DirectColumnsExactly | crates/lakecat-security/src/lib.rs:202-218 | the direct columns are at the first of the seven places, in order, that is present |
| PolicyReaders.DirectPredicateExactly | crates/lakecat-security/src/lib.rs:246-262 | likewise for the direct row predicate |
| PolicyReaders.DirectTtlsExactly | crates/lakecat-security/src/lib.rs:338-352 | the direct lifetimes are at all six places |
| DocumentLaws.ConstraintsMeaning | crates/lakecat-security/src/lib.rs:447-462 | a document's constraints are its own and those of its permissions |
| DocumentLaws.CollectedMeaning | crates/lakecat-security/src/lib.rs:383-437 | reading constraints on an operand succeeds iff each of them is well-formed, and gathers exactly what they state |
| DocumentLaws.ColumnsAreUnited | crates/lakecat-security/src/lib.rs:221-242 | without a direct key the declared columns are the union of what the column constraints list, and none are declared iff there is no such constraint |
| DocumentLaws.DirectColumnsPreempt | crates/lakecat-security/src/lib.rs:202-219 | the value at the first of seven places that is present pre-empts every constraint; the declared columns are the non-blank strings it lists, or reading fails |
| DocumentLaws.DirectPredicatePreempts | crates/lakecat-security/src/lib.rs:246-264 | a direct row predicate pre-empts every constraint, and is an object or an error |
| DocumentLaws.PredicatesAreCollected | crates/lakecat-security/src/lib.rs:266-282 | without a direct key the declared predicates are the objects of the predicate constraints |
| DocumentLaws.PurposesAreCollected | crates/lakecat-security/src/lib.rs:302-334 | reading purposes succeeds iff a direct one is readable and every purpose constraint well-formed; a direct purpose then stands beside those of the constraints |
| DocumentLaws.TtlsAreCollected | crates/lakecat-security/src/lib.rs:336-373 | reading lifetimes succeeds iff all direct ones are numbers and every lifetime constraint is well-formed, and gathers both |
| PolicyLaws.CompositionSucceeds | crates/lakecat-security/src/lib.rs:124-163 | the fold succeeds iff every document is readable and all declared purposes agree; the purpose is then that one |
| PolicyLaws.ColumnsAreIntersection | crates/lakecat-security/src/lib.rs:132-137 | the allowed columns are the duplicate-free intersection of the declared lists, and absent iff none is declared |
| PolicyLaws.PredicateIsConjunction | crates/lakecat-security/src/lib.rs:138-143 | the row predicate holds iff all declared ones do, for any evaluation in which "and" is conjunction |
| PolicyLaws.TtlIsMinimum | crates/lakecat-security/src/lib.rs:154-160 | the lifetime is the least declared one |
| PolicyLaws.PolicyHashesInOrder | crates/lakecat-security/src/lib.rs:129-130 | the policy hashes are the digests of the documents, one for each, in order |
| PolicyLaws.MorePoliciesNarrow | crates/lakecat-security/src/lib.rs:124-163 | adding policies anywhere never widens any component |
| PolicyLaws.FoldIgnoresOrder | crates/lakecat-security/src/lib.rs:124-163 | lists with the same policies succeed or fail alike and restrict alike |
| PolicyLaws.PermutationFoldsAlike | crates/lakecat-security/src/lib.rs:124-163 | in particular all permutations do |
| Projection.EffectiveProjectionLaws | crates/lakecat-security/src/lib.rs:165-187 | a narrowed projection holds exactly the permitted columns in request order, is never empty under a restriction, and narrowing it again changes nothing |
| Projection.EffectiveProjectionExactly | crates/lakecat-security/src/lib.rs:165-187 | narrowing fails iff no column is allowed or a request meets none; an empty request yields the allowed columns themselves, another its allowed part in order |
| Projection.EffectiveStatsExactly | crates/lakecat-security/src/lib.rs:189-194 | statistics fields are the allowed part of those requested, in order, and without a restriction all of them |
| Projection.RequireNarrowing | crates/lakecat-cli/src/verify_handoff.rs:1539-1587 | the evidence check decides "two proper lists, one drawn from the other, equal to the restriction's" |
| Projection.RequireGovernedScanEvidence | crates/lakecat-cli/src/verify_handoff.rs:1438-1587 | the projection and both statistics checks together |
| Projection.AcceptedNarrowingIsStrict | crates/lakecat-cli/src/verify_handoff.rs:1539-1587 | accepted evidence means a strict subset, although only lengths are compared |
| Projection.ProjectionEvidenceExact | crates/lakecat-cli/src/verify_handoff.rs:1539-1587 | evidence of the real narrowing passes iff the allowed list is a proper list strictly inside a proper request and in request order |
| Projection.StatsEvidenceExact | crates/lakecat-cli/src/verify_handoff.rs:1438-1537 | the same for statistics fields, where a fetched scan need not be narrower |
| Authorization.AuthorizeWithOperationContext | crates/lakecat-service/src/identity.rs:304-373 | the context is built step by step and the decision taken on it, as the authorization function says |
| Authorization.InsertAll | crates/lakecat-service/src/identity.rs:348-358 | an operation's entries are inserted unless one would replace an entry |
| Authorization.ContextIsKept | crates/lakecat-service/src/identity.rs:348-358 | base context is never replaced, and every operation entry is carried |
| AuthorizationLaws.VerifyTypedidExactly | crates/lakecat-service/src/identity.rs:235-265 | without an envelope the identity stays; with one the outcome has the verified principal, which a named caller must already be, and its evidence says so member by member |
| AuthorizationLaws.ContextSays | crates/lakecat-service/src/identity.rs:326-337 | the context names warehouse, request identity and, one for one and in order, the policy bindings |
| AuthorizationLaws.CapabilityExactly | crates/lakecat-security/src/lib.rs:1057-1081 | a receipt gives a capability iff it allows this action on this table and the restriction its context carries is readable; the capability carries that one, or none |
| RestrictionCodec.RestrictionRoundTrip | crates/lakecat-security/src/lib.rs:94-106 | a restriction is read back as written iff its row predicate is not null |
| RestrictionCodec.DecodedExactly | crates/lakecat-security/src/lib.rs:94-106 | what any object is read as: each field from its own member, `null` as absence except for the hashes |
| AuthorizationLaws.ComposedIsCodable | crates/lakecat-security/src/lib.rs:124-292 | composed restrictions are read back unchanged and carry one hash for each policy |
| AuthorizationLaws.PreparedRead | crates/lakecat-service/src/identity.rs:304-365 | the request put to the engine is made by the verified principal and carries, readably, the restriction that the policies of the table compose to |
| AuthorizationLaws.CapabilityUnderEcho | crates/lakecat-service/src/identity.rs:304-373 | under any engine that echoes what it is asked, whatever its verdict rests on, a capability carries the composed restriction, the verified principal, and the verdict on the very request with the policy hash that covers the policies |
| AuthorizationLaws.CredentialGate | crates/lakecat-service/src/handlers.rs:718-761 | for every echoing engine credentials are blocked iff the composed restriction requires a governed read and the verified principal is not human, and then none is returned |
| PolicyBindings.BindingsForTable | crates/lakecat-store/src/helpers.rs:1047-1058 | a table is governed by exactly the enforced bindings that apply to it, each once and ordered by id, and by nothing else in the store |
| PolicyBindings.GovernsExactly | crates/lakecat-store/src/records.rs:1680-1692 | a binding governs a table iff it is enforced, of the table's warehouse, and for the whole warehouse, the table's namespace or the table itself |
| PolicyBindings.AtMostExactly | crates/lakecat-store/src/helpers.rs:1056-1056 | ids are ordered as strings: a prefix first, otherwise by the first character that differs |
| GrantLaws.MismatchIsCollision | crates/lakecat-service/src/governed_scan.rs:182-192 | an accepted proof under a stored grant's id is the stored one, short of a digest collision |
| GrantLaws.IssuesExactly | crates/lakecat-service/src/governed_scan.rs:86-165 | planning gives a grant iff a purpose is declared, the plan's snapshot is the table's current one, the context's request identity names the receipt's principal, an agent's attestation state is "verified", and names and projections are canonical; digests and the grant's own integrity check never stand in the way |
| GrantLaws.NoGrantExactly | crates/lakecat-service/src/governed_scan.rs:95-126 | a plan goes through without a grant iff no purpose is declared, or the principal is an agent that is named but not attested; everything else in the way is an error |
| GrantLaws.WhoGetsGrants | crates/lakecat-service/src/governed_scan.rs:382-388 | under an echoing engine, with the ordinary unverified envelope, a principal that is no agent gets a grant under the remaining conditions, and an agent only by a TypeDID verification |
| GrantLaws.AgentGrantsAreVerified | crates/lakecat-service/src/governed_scan.rs:108-125 | under any echoing engine an agent gets a grant only where a TypeDID verification named that agent |
| GrantLaws.SavedExactly | crates/lakecat-store/src/memory.rs:643-661 | a new grant is stored and can be loaded; one that differs in time only gives back the stored one; any other under its id is refused |
| GrantLaws.CanonicalTextExactly | crates/lakecat-core/src/governed_scan/validation.rs:90-103 | canonical text is not empty, has at most 4096 bytes, no white space at either end and no control character |
| GrantLaws.CanonicalProjectionExactly | crates/lakecat-core/src/governed_scan/validation.rs:138-177 | a canonical projection holds at most 256 different canonical names of at most 65536 bytes together |
| GrantLaws.SuccessShows | crates/lakecat-service/src/governed_scan.rs:172-321 | for any engine, success means the stored proof, current table evidence, an unchanged restriction and an allowing answer; the fresh policy digest is the original one |
| GrantLaws.RevalidatesExactly | crates/lakecat-service/src/governed_scan.rs:172-349 | under echoing engines a stored grant revalidates iff table record and composed restriction are those of the time of issue and the verdict on the revalidation's request is the verdict given on the scan's; and the proof presented comes back |
| GrantLaws.RequestsDiffer | crates/lakecat-service/src/governed_scan.rs:261-291 | the requests of a scan and of its revalidation agree in principal, action and table, and only the second names the grant in its context |
| GrantLaws.FreshContextSays | crates/lakecat-service/src/governed_scan.rs:261-291 | the context of a revalidation names warehouse, grant, restriction, the current bindings one for one, and the principal with the digest of the original context |
| Engines.TypeSecDecides | crates/lakecat-security/src/typesec_integration/mod.rs:58-85 | TypeSec allows a scan iff its policy allows the subject "table.plan_scan" on the table's stable id |
| Engines.ScopeOnlyEngines | crates/lakecat-security/src/typesec_integration/mod.rs:58-85 | the allow-all engine decides by scope alone; TypeSec does not, as soon as its digests tell two contexts apart |
| Engines.TypeSecNeverRevalidates | crates/lakecat-security/src/typesec_integration/mod.rs:58-85 | under TypeSec, whatever became of its rules, revalidating a stored grant fails, short of a digest collision |
| GrantProtocol.RequestOrigin | crates/lakecat-service/src/identity.rs:304-358 | a pending request was made out earlier in the run, with the policies of that moment |
| GrantProtocol.CapabilityOrigin | crates/lakecat-service/src/identity.rs:359-372 | in every run a capability was won earlier in that run, by the engine of that moment answering a pending request |
| GrantProtocol.LoadOrigin | crates/lakecat-service/src/scan.rs:65-66 | a loaded table record was the live one when it was loaded |
| GrantProtocol.GrantOrigin | crates/lakecat-store/src/memory.rs:643-661 | every stored grant was planned earlier in the run and is stored under its own id |
| GrantProtocol.GrantsAreKept | crates/lakecat-store/src/memory.rs:643-661 | stored grants are never replaced or removed |
| GrantProtocol.CapabilityHistory | crates/lakecat-service/src/identity.rs:304-373 | what a scan prepared at one moment and authorized at a later one won is what the later engine would have given under the policies of the earlier moment |
| GrantProtocol.VersionsGrow | crates/lakecat-store/src/memory.rs:518-526 | a table's version only grows, unless the table was replaced by another in between |
| GrantProtocol.SuccessMeansCurrent | crates/lakecat-service/src/governed_scan.rs:172-321 | in every run, with the reads of a revalidation spread over it in any way, success means the grant was prepared, authorized, loaded and planned earlier in that order, and record, restriction, purpose and projection are still those; the last engine allows the scan |
| GrantProtocol.DeadOnceMoved | crates/lakecat-service/src/governed_scan.rs:216-236 | once the version has moved, a later revalidation succeeds only if the table was replaced in between |
| GrantProtocol.CommitKills | crates/lakecat-store/src/memory.rs:509-526 | a commit kills every grant that binds the version it replaces, unless the table is replaced afterwards |
| GrantProgress.GrantIsReached | crates/lakecat-service/src/scan.rs:63-68 | from any state the four steps of a scan lead to its stored grant, if each of them succeeds, and change nothing but what they add |
| GrantProgress.CommitWrites | crates/lakecat-store/src/memory.rs:509-526 | a commit to a live table writes the next version of the given metadata, or of the old, stamped with that version and the request hash, every other member kept |
| GrantProgress.DropSuspends | crates/lakecat-store/src/memory.rs:286-292 | after a drop of the table no grant for it revalidates until it is restored or replaced |
| GrantProgress.RestoredTableRevives | crates/lakecat-store/src/memory.rs:918-969 | after drop and restore the grant revalidates as if the table had never been dropped, if the verdict stands and table and policies were left alone |
| GrantProgress.LastRuleIsInForce | crates/lakecat-service/src/identity.rs:359-367 | the engine that answers is the one the last change of rules put in place |
| GrantRuns.RunRevalidatesExactly | crates/lakecat-service/src/governed_scan.rs:172-349 | in every run, with the four reads at any four moments, a stored grant revalidates iff record and composed restriction are those it was granted on and the verdict on the revalidation's request is the one on the scan's, and then its own proof comes back |
| GrantRuns.RulesDecide | crates/lakecat-service/src/governed_scan.rs:261-293 | with table and policies left alone it revalidates iff the verdict stands, however the rules changed in between |
| GrantRuns.QuietGrantRevalidates | crates/lakecat-service/src/governed_scan.rs:172-214 | it revalidates, with exactly its proof, while the verdict stands and nothing touches its table or the policies of its table |
| GrantRuns.ScopeDecides | crates/lakecat-security/src/lib.rs:1096-1112 | between engines that decide by scope the verdict stands iff both give the same verdict on the scan's request |
| GrantRuns.TypeSecRun | crates/lakecat-security/src/typesec_integration/mod.rs:58-85 | with TypeSec at both ends no stored grant of any run ever revalidates, short of a digest collision |
| GrantRuns.RewrittenPolicySuspends | crates/lakecat-service/src/governed_scan.rs:238-259 | while a policy is rewritten and the verdict stands, the grant revalidates iff the policies still compose to its restriction |
| GrantRuns.RestoredPolicyRevives | crates/lakecat-store/src/memory.rs:1336-1345 | once the policy is put back the grant revalidates, if the verdict stands and the table and its other policies were left alone |
| GrantRuns.ReplacementDecides | crates/lakecat-service/src/governed_scan.rs:216-236 | a table put in the place of the old one lets the grant revalidate iff its record is the bound one |
| Names.BuildStorageKey | crates/lakecat-core/src/lib.rs:112-121 | the loop builds the length-prefixed key |
| Names.StorageKeyDecodes | crates/lakecat-core/src/lib.rs:107-121 | a string decodes to a namespace iff it is its storage key |
| Names.StorageKeyInjective | crates/lakecat-core/src/lib.rs:107-121 | different namespaces never share a storage key |
| Names.PathRoundTrip | crates/lakecat-core/src/lib.rs:103-136 | a path parses back to its namespace iff no component contains a dot |
| Names.StableIdDetermines | crates/lakecat-core/src/lib.rs:188-193 | a stable id determines warehouse, path and name, and nothing more |
| Names.PathsCollide | crates/lakecat-core/src/lib.rs:107-136 | two namespaces that only storage keys tell apart |
| Names.FramingInjective | crates/lakecat-core/src/lib.rs:277-287 | the digest input determines domain and evidence when the domain has no NUL |
| CatalogGraph.GraphBuilder.InsertNamespaceNode | crates/lakecat-querygraph/src/lib.rs:377-408 | a namespace comes with its edges the first time its id is met, and not again |
| CatalogGraph.GraphBuilder.InsertTenantSpine | crates/lakecat-querygraph/src/lib.rs:410-479 | server, project and warehouse nodes and the edges between them |
| CatalogGraph.BuildGraph | crates/lakecat-querygraph/src/lib.rs:277-375 | the builder's loops compute the fold over tables and then views |
| GraphLaws.GraphIsItsSets | crates/lakecat-querygraph/src/lib.rs:277-479 | without id clashes the output is exactly the set of all nodes and the set of all edges |
| GraphContents.FirstNodeIsKept | crates/lakecat-querygraph/src/lib.rs:277-479 | for every input, clashing ids included: the ids are those of the spine, each table's namespace, table and policy, each view's namespace and view, and under an id stands the first node in that order, with the kind and properties it came with |
| GraphContents.EdgesExactly | crates/lakecat-querygraph/src/lib.rs:277-479 | without id clashes an edge is in the graph iff it is one of the spine's, leads to a namespace of a table or view, leads from there to it, or from a table to its policy |
| GraphLaws.ProperIsUnambiguous | crates/lakecat-querygraph/src/lib.rs:277-479 | validated names, derived ids and distinct stable ids never clash |
| GraphLaws.NamespaceIdDetermines | crates/lakecat-querygraph/src/lib.rs:384-384 | a namespace id determines warehouse and path |
| GraphLaws.GraphIgnoresOrder | crates/lakecat-querygraph/src/lib.rs:277-375 | the output is the same for every order of tables and views, and for repetitions |
| GraphCounts.ClosedIffOneWarehouse | crates/lakecat-querygraph/src/lib.rs:277-408 | every edge endpoint is a node iff all tables and views lie in the given warehouse |
| GraphCounts.EveryNodeReachable | crates/lakecat-querygraph/src/lib.rs:277-479 | every node is reachable from the catalog node |
| GraphCounts.NodeCount | crates/lakecat-querygraph/src/lib.rs:277-375 | 4 + namespaces + 2·tables + views nodes |
| GraphCounts.EdgeCount | crates/lakecat-querygraph/src/lib.rs:277-479 | 3 + 2·namespaces + 2·tables + views edges |
| ImportPlan.RequireUniqueStableIdArray | crates/lakecat-cli/src/verify_proof.rs:974-1006 | accepted iff non-blank, distinct ids of the expected number, which are returned |
| ImportPlan.UniqueIdsExactly | crates/lakecat-cli/src/verify_proof.rs:974-1006 | these are pairwise different strings, each with a character that is not white space |
| ImportPlan.RequireCoversVerifiedIds | crates/lakecat-cli/src/verify_handoff.rs:1589-1615 | accepted iff every verified id is the stable id of a record |
| ImportPlan.RequireArtifactLists | crates/lakecat-cli/src/verify_handoff.rs:1367-1419 | the plan's lists are closed, have the verified length and cover the verified ids |
| ImportPlan.ListExactly | crates/lakecat-cli/src/verify_handoff.rs:1367-1419 | a list is accepted iff it is an array as long as counted, of objects with known members, and every verified id is a string and some record's `stable-id` |
| ImportPlan.CoveringListIsPermutation | crates/lakecat-cli/src/verify_handoff.rs:1386-1415 | a list as long as a duplicate-free one that covers it is a permutation of it |
| ImportPlan.PlanIsPermutation | crates/lakecat-cli/src/verify_proof.rs:882-928 | across the three checks, the plan's records are objects whose `stable-id` members are exactly the verified ids, none extra and none repeated |
| Reflow.ReflowText | scripts/textpack.py:50-83 | the line loop computes the reflow specification |
| ReflowBlocks.ParagraphIsJoined | scripts/textpack.py:58-81 | adjacent prose lines become one line: their stripped texts with single blanks between |
| ReflowBlocks.BreakIsKept | scripts/textpack.py:73-79 | outside code a blank line becomes empty and a structural line stays untouched, and what is before and after is reflowed by itself |
| ReflowBlocks.FencedIsKept | scripts/textpack.py:65-72 | a fenced block stays untouched, and what is before and after is reflowed by itself |
| ReflowBlocks.UnclosedIsKept | scripts/textpack.py:65-72 | after a fence that is never closed everything stays untouched |
| ReflowBlocks.StripExactly | scripts/textpack.py:64-64 | stripping takes all white space off both ends and nothing else |
| ReflowBlocks.TextExactly | scripts/textpack.py:83-83 | the text is the lines without the empty ones at the end, and one line break |
| Reflow.ReflowIdempotent | scripts/textpack.py:50-83 | reflowing twice is reflowing once, for any structure predicate |
| Reflow.ReflowConservesTokens | scripts/textpack.py:50-83 | the sequence of white-space separated tokens is conserved |
| Reflow.ReflowKeepsCode | scripts/textpack.py:65-72 | fences and the lines inside them stay verbatim up to empty lines at the end of the text |
| Reflow.ParagraphsAreSingleLines | scripts/textpack.py:50-83 | in every reflowed text a prose line is stripped and no prose line follows it |
| Reflow.OutLinesSettled | scripts/textpack.py:63-82 | the output of a reflow is settled |

## Left out

- Trees updated in place: field ids and source ids are assigned to JSON values that are rebuilt and returned, with the counter and the map kept as object state; aliasing inside a document cannot arise in the original either.
- Error kinds and messages: every rejection is one outcome, so which of several faults is reported is not modelled.
- Digests: SHA-256 and JSON serialization are functions given as parameters; grant digests are taken over typed values, so that equal encodings of different values count as collisions.
- JSON numbers are integers or reals; the rounding of floating-point members is not modelled.
- RFC 3339 parsing of `recordedAt` is an abstract normalisation, so receipts agree up to it.
- Evidence fields that are only compared with a constant or checked for presence (closed field lists of other sections, string equalities, replay lines) are not modelled.
- GrantProtocol.VersionsGrow: versions are unbounded numbers here; the code's 64-bit increment is not modelled at its limit.
- SourceIds.InitialTableMetadata: the constant members of new metadata (format version, location, properties, empty logs, timestamps) are not part of the record.
- GrantProtocol.CommitKills: a commit step stands for a successful one; the comparison of metadata pointers and the idempotency replay that decide success belong to the store.
- Renaming a table away and creating or registering another under its name is one replacing step; the checks of the store on each are not modelled.
- JSON objects read as restrictions: serde also accepts a restriction written as an array, which the reader here rejects.
- The proof verifier's checks of the table commit history and of the configuration endpoints are not modelled.
- OpenLineage, Croissant and OSI projections, audit events, HTTP routing, header parsing, storage profiles and the credential issuer itself: input and output plumbing or external services.
- Sail planning: a scan's snapshot and tasks are inputs.
- GrantProtocol.RequestOrigin: the TypeDID verifier is fixed over a run, so at which moment an identity is verified makes no difference.
- ReceiptStore.RunIsSound: one view's rows in the memory store; the store keeps all views' receipts in one list and selects by key. Expected-version guards only add refusals and are not steps. A receipt's digest is taken over the value the verifier rebuilds.
- The regular expression that decides what is Markdown structure is a parameter, as is white space; only a blank and a line break must count as white space.
