# Models of godevccu

godevccu imitates a Homematic CCU and its box software. This project models five of its parts in
Dafny and proves what they promise over every input, every run or every interleaving.

**Metadata store** (`Text`, `Names`, `MetaTree`, `MetaOps`, `MetaSafety`, `MetaOrder`,
`MetaRequests`, `MetaReplica`, `MetaLog`, `MetaEvents`, `MetaRuns`, `MetaFeed`, `MetaStore`). Enum
trees of named nodes and objects that refer to nodes by full path. Transactions work on a copy,
commit with an optimistic revision, append one batch of events to a bounded log and fan them out.
`MetaOps` states the operations as functions on the content, `MetaSafety` what they do to every
path, and `MetaRequests` what each request comes to in the request's own strings: paths, labels,
refusals, events, and with `MetaOrder` the order of siblings. `MetaReplica` and `MetaLog` show that
the events rebuild the content, `MetaEvents` which events a transaction announces and in which
order, `MetaRuns` the log over every history, `MetaFeed` what a slow subscriber receives of it, and
`MetaStore` holds the transaction, the store and its subscribers as classes whose methods are proved
equal to those functions.

**ReGa scripts** (`RegaGrammar`, `RegaParser`, `RegaScript`, `RegaStatements`, `RegaTidy`,
`RegaCut`, `RegaReadings`, `RegaReader`, `RegaInterp`, `RegaMeaning`, `RegaDerivation`,
`RegaExecution`, `RegaRun`). `RegaGrammar` is an independent grammar of expressions: concrete trees,
their text, and the form with the fewest brackets. `RegaParser` proves the precedence-climbing
parser sound and complete for it. `RegaScript` is the same for statements, with stray and missing
semicolons, single-statement bodies and both kinds of else-if; what may follow a statement is part
of the grammar. `RegaStatements` proves the statement parser sound and complete, `RegaTidy` a
printer whose text parses back, and `RegaCut` which scripts make the parser look past its last
token; `RegaReadings` says token by token how statements and pairs of operators are read, against a
literal table. `RegaReader` is the parser as the object that advances a position. `RegaInterp` gives
a script its meaning in a world whose answers may differ from question to question, and bounds the
work by a number read off the text. `RegaMeaning` (truth, numbers, text, operators),
`RegaDerivation` (one rule per expression) and `RegaExecution` (one rule per statement) define what
a script means apart from any evaluator, and prove that a script has a derivation to an end if and
only if the interpreter ends so. `RegaRun` is the interpreter with its loops and its one set of
variables.

**Event ring and stream** (`Decimal`, `EventRing`, `EventStream`, `StreamWords`). The replay ring
with boot id, pruning and resume rule, its lossy readers, and the delivery and heartbeat loop of a
stream (Server-Sent Events, section 9.2 of the WHATWG HTML Standard), as atomic steps in any order.
`StreamWords` says what that is on the wire: ids, reasons of a resync, and what a filter leaves out.

**BIN-RPC** (`BinDouble`, `BinCodec`, `BinWire`, `BinCanon`, `BinIO`). Words, Latin-1 strings,
tagged values and framed requests; the round trip, the exact condition of the converse for all
accepted bytes, an allocation bound, and double quantisation in float64: where it overflows,
vanishes or is refused, and where the accuracy of the library's logarithm shows. `BinWire` states
the bytes of the protocol literally and proves that encoder and decoder write and read exactly
those. `BinIO` has the reader with its moving offset, the buffer and the loops over preallocated
slots.

**Device-side state and pairing** (`Params`, `ParamWrites`, `MasterModel`, `MasterValues`,
`ParamCache`, `ParamStore`, `DeviceDiff`, `TokenName`, `SlugWords`, `Pairing`, `PairingAnswers`,
`PairingDesk`). The compiled-paramset cache, the two MASTER write models, the device diff of an
init, and client pairing with its limits, commit and reveal, and the naming of paired tokens.
`ParamWrites` and `MasterValues` say type by type what a write stores, `SlugWords` and
`PairingAnswers` what a token is called and how each pairing call is answered, all without the
functions that compute it. `Collections` holds what all parts share. `ParamStore` and `PairingDesk`
keep tables and records as objects that are changed in place; their methods are proved equal to the
steps the runs are about.

What the clock, the network, random ids, hashes, JSON rendering, number parsing and similar library
code give is a parameter everywhere, so each result holds whatever they answer.

## What turned out different from expected

Each of these has its exact condition for all inputs and, in brackets, a lemma at a failing input.

- A request nested deeper than 64 is written without complaint and refused when read:
  `BinCodec.RoundTrip` holds if and only if the parameters nest at most 64 deep
  (`BinCodec.DeepIsRefused`).
- A finite number of 2^994 and more is written and read back as an infinity
  (`BinCodec.LargeComesBack`, and `BinDouble.LargeIsInfinite` for the pairs on the wire).
  `BinDouble.QuantisationError` says exactly which numbers do so; up to 2^994 - 2^964 none does,
  whatever the logarithm (`BinDouble.SafeRange`).
- Finite numbers below about 2^-1024 are refused (`BinDouble.SmallIsRefused`); `MantissaRange` and
  `Float64Encodes` of `BinDouble` say which.
- A decoded number is not always decoded to itself again. It is not if and only if the number was
  negative and the library's logarithm put it below the power of two it lies just above
  (`BinDouble.QuantiseTwice`; `BinDouble.NegativeDrifts`).
- Accepted bytes are the encoding of what they decode to if and only if every bool byte is 0 or 1
  and every double is a normal pair (`BinCanon.CanonicalInverse`). Other bool bytes come back as 1
  (`BinCanon.OddBool`). `BinDouble.PairNormal` says which pairs keep their bytes; of the two pairs
  of a power of two the logarithm picks one (`BinDouble.EitherMantissa`). `BinDouble.PairFixed`
  says which keep their value: an odd mantissa of 31 bits does not (`BinDouble.OddMantissa`).
- After a device diff a client mirrors the server if and only if it held no conflicting copies of
  a device it had up to date (`DeviceDiff.Converges`): such a stale duplicate is never deleted
  (`DeviceDiff.StaleDuplicate`).
- A slug is its own slug if and only if the text has a usable character (`TokenName.SlugStable`);
  otherwise it ends in a dash (`TokenName.SlugOfNothing`).
- The statement parser looks past its last token, and panics, if and only if the script stops
  right after `foreach (` where a statement may begin (`RegaCut.PanicsExactly`). A caller can tell
  from the last two tokens, and loses no valid script (`RegaCut.PanicsWhenCutOff`, which also names
  the shortest such script).
- A semicolon of its own is skipped in front of a statement, but in front of a closing brace it
  refuses the script (`RegaStatements.StraySemicolon`; `RegaStatements.StrayScript`), and after the
  bracket of an `if` or a loop it is no body: the next statement is
  (`RegaStatements.SemicolonBody`; `RegaTidy.BodyScript`).
- A client of the change stream sees a gap of revisions if and only if the queue was full for every
  event of some revision and had room for a later one (`MetaFeed.LossShows`). The rest of a revision
  that overflows half-way is lost unnoticed (`MetaFeed.UnseenLoss`).

These follow from the code too, but not with the device catalogue it embeds, where addresses are
in upper case, no address has two descriptions, every MASTER parameter has a known type and
numeric bounds come in pairs.

- Deleting a device forgets the stored values of a channel only when its address is spelled in
  upper case in the device list (`ParamCache.DeleteForgets`; `ParamCache.LowerCaseStays`). With
  upper-case lists it always forgets them (`ParamCache.DeleteForgetsAll`).
- A description loaded over one in use is not seen by readers until the cache is cleared
  (`ParamCache.LoadExact` says exactly when that shows; `ParamCache.LoadIsUnseen`).
- rfd answers a write sent twice with a second CONFIG_PENDING if and only if the write gives a NaN,
  bare or inside a list or map, to a parameter of a type outside the six known ones
  (`MasterModel.RepeatChangesNothing`; `MasterModel.NaNRepeats`). With known types a repeat is
  always quiet (`MasterModel.RepeatIsQuiet`).
- An INTEGER with a bound on one side only can be stored outside it, since what converting a
  number beyond 64 bits gives is up to the platform: for every such input there is a platform where
  it happens (`MasterModel.OpenEndedFails`), and otherwise it never does
  (`MasterModel.BidcosInBounds`).

## Model

| member | source | states |
|---|---|---|
| MetaSafety.ApplyKeepsShape | pkg/litefake/meta.go:487-816 | every committed operation keeps sibling ids distinct and slash-free and every node at depth 8 or less, whatever paths the objects hold |
| MetaSafety.ApplyKeepsWellFormed | pkg/litefake/meta.go:487-816 | if moreover all object paths resolve, they do so after every committed operation |
| MetaSafety.MoveKeepsMembership | pkg/litefake/meta.go:733-800 | moving a node keeps every membership that resolves: each object keeps its paths in order, a path into the moved subtree names the very node it named before, every other path a node with the same label |
| MetaSafety.PatchNodeEffect | pkg/litefake/meta.go:733-800 | what a planned node patch does to every full path: the subtree appears below the target, disappears below the source, and nothing else changes; MetaRequests.NodePatched gives both in the request's strings |
| MetaSafety.CreateNodeEffect | pkg/litefake/meta.go:678-708 | creating a node adds exactly the path it announces, which did not resolve before; MetaRequests.CreatedAt says which path that is |
| MetaSafety.DeleteNodeEffect | pkg/litefake/meta.go:802-816 | deleting a node removes exactly the paths at and below it |
| MetaSafety.DeleteEnumEffect | pkg/litefake/meta.go:627-637 | deleting an enum removes exactly the paths under its id |
| MetaSafety.MembersStripped | pkg/litefake/meta.go:613-623 | after the member check passes, no object holds a path under the removed one, and each keeps exactly its other paths in order and everything else |
| MetaSafety.MembersGone | pkg/litefake/meta.go:613-623 | and every path objects still hold names a node once the subtree is gone |
| MetaSafety.RewriteEach | pkg/litefake/meta.go:458-473 | rewriting keeps each path at its place, replaced only below the moved one |
| MetaSafety.RewriteOrigin | pkg/litefake/meta.go:458-473 | every path of a rewritten list stems from an old one |
| MetaSafety.UnderNode | pkg/litefake/meta.go:1033-1040 | a path lies under a node path exactly when it names the same enum and its ids extend the node's |
| MetaSafety.TargetFree | pkg/litefake/meta.go:757-790 | a move accepted by the sibling check never lands on an ancestor of where it came from |
| MetaRequests.CreatedAt | pkg/litefake/meta.go:641-708 | a create is refused for exactly the listed reasons in their order, or makes one node at the text of its parent (the enum without one), a slash and the id, with the cleaned name and the given icon, announces it there, and changes no other path and no object |
| MetaRequests.NodePatched | pkg/litefake/meta.go:733-800 | a patch is refused for exactly the listed reasons in their order, or leaves the node at the text of the given parent and its own id (where it was without one) with the given name and icon or its old ones; everything below comes along, every path objects hold is carried along, nothing else changes, and the events are exactly these |
| MetaRequests.NodeRemoved | pkg/litefake/meta.go:802-816 | a deletion is refused with the refs of the members in order unless they are detached, and else takes the node, all below it, and the paths there out of every object, and nothing else |
| MetaRequests.EnumRemoved | pkg/litefake/meta.go:613-637 | the same for an enum |
| MetaRequests.EnumWritten | pkg/litefake/meta.go:555-611 | a new enum is empty and announced, a renamed one keeps its tree and is announced when the name differs; each refusal exactly |
| MetaRequests.ObjectPatched | pkg/litefake/meta.go:487-535 | an object patch is refused for exactly the listed reasons in their order, or leaves every other object as it is and gives this one the cleaned name, the given paths, and each namespace absent, patched or kept, with its mark kept |
| MetaRequests.ObjectDeletedOrMarked | pkg/litefake/meta.go:537-552 | deleting forgets one object and marking changes its mark only |
| MetaRequests.PathNames | pkg/litefake/meta.go:401-431 | a path names a node if and only if it spells the enum and the ids from the root of its tree down to it |
| MetaRequests.TrimMeans | pkg/litefake/meta.go:721-731 | trimming a node path takes away slashes at both ends and nothing else |
| MetaRequests.CreatedOrder | pkg/litefake/meta.go:663-708 | a new node stands at the position asked for or last, with no children, and no other list changes |
| MetaRequests.PatchedOrder | pkg/litefake/meta.go:733-800 | a patched node stands at the position asked for or the one it had, the list it left closes up, its own lists come along, no other list changes |
| MetaRequests.RemovedOrder | pkg/litefake/meta.go:802-816 | the list of a deleted node closes up, its own lists are gone, no other list changes |
| Text.UnderIsPrefix | pkg/litefake/meta.go:1033-1040 | the string test for a subtree is the prefix order on path parts |
| Text.RebaseParts | pkg/litefake/meta.go:458-473 | replacing the string prefix of a path replaces exactly the leading parts |
| MetaTree.AttachLookup | pkg/litefake/meta.go:663-672 | attaching a subtree makes it, and only it, resolvable below its new list |
| MetaTree.DetachLookup | pkg/litefake/meta.go:740-790 | detaching a subtree makes exactly the ids below it unresolvable |
| MetaTree.RelabelLookup | pkg/litefake/meta.go:733-800 | relabelling changes the label at one id path only |
| MetaTree.DepthGood | pkg/litefake/meta.go:433-440 | a subtree fits below any list with room for its measured depth |
| MetaReplica.NodesExact | pkg/litefake/meta.go:423-431 | the flat copy of a store holds exactly the paths that resolve, with their labels |
| MetaReplica.PatchNodeFollows | pkg/litefake/meta.go:733-800 | the moved and updated events applied to a copy give a copy of the patched store |
| MetaReplica.CreateNodeFollows | pkg/litefake/meta.go:678-708 | the created event applied to a copy gives a copy of the new store |
| MetaReplica.DeleteNodeFollows | pkg/litefake/meta.go:802-816 | the deleted event applied to a copy gives a copy of the new store |
| MetaReplica.DeleteEnumFollows | pkg/litefake/meta.go:627-637 | the enum-deleted event applied to a copy gives a copy of the new store |
| MetaReplica.PutEnumFollows | pkg/litefake/meta.go:567-611 | the enum created or updated event applied to a copy gives a copy of the new store |
| MetaLog.CommitReplays | pkg/litefake/meta.go:250-304 | the events of a whole transaction, applied in order to a copy of the old content, give a copy of the new |
| MetaLog.ChangeIsAnnounced | pkg/litefake/meta.go:250-304 | a transaction without events changed nothing |
| MetaEvents.MutateIs | pkg/litefake/meta.go:250-274 | a mutation performs its operations one on what the other left, or fails at another revision or with the first refusal; a change is announced at the next revision, first what each operation tells, then the objects that differ |
| MetaEvents.ObjectEventsAre | pkg/litefake/meta.go:279-305 | exactly the objects that differ are announced, in ascending order of their references, gone or with their new content |
| MetaRuns.MutationContract | pkg/litefake/meta.go:250-277 | refused or unchanging: everything as before; changing: revision up by exactly one, events non-empty, all at that revision and rebuilding the content; a wrong If-Match revision conflicts |
| MetaRuns.AttachExact | pkg/litefake/metastream.go:23-46 | over every history of mutations, seeds, trims and restarts: an attach is replayed exactly the emitted events above its revision, or resynced, and the latter exactly when one of them is no longer held |
| MetaRuns.ReplicaCatchesUp | pkg/litefake/metastream.go:23-46 | a copy kept at an earlier revision plus the replay is a copy of the current content, wherever the log was trimmed |
| MetaRuns.RunKeeps | pkg/litefake/meta.go:309-349 | over every history the log is what remains of everything emitted, and droppedThrough is the newest revision missing from it |
| MetaRuns.RunWellFormed | pkg/litefake/meta.go:250-349 | over every history whose seeds resolve all object paths, all object paths resolve |
| MetaRuns.PublishKeeps | pkg/litefake/meta.go:309-325 | appending and trimming keep that, even in the middle of a revision |
| MetaFeed.NothingLost | pkg/litefake/meta.go:306-325 | however commits, the handing out of each single event and the reads of the client interleave, the client has or will have everything handed out if and only if its queue had room every time |
| MetaFeed.BatchAtOnce | pkg/litefake/meta.go:309-318 | without a read in between, handing out a batch leaves the queue as a publish does |
| MetaFeed.StreamIsComplete | pkg/litefake/metastream.go:23-46 | while the queue has room, the replay followed by what is received and what is still to be handed out is everything emitted above the position, exactly once and in order |
| MetaFeed.LossShows | pkg/litefake/meta.go:306-308 | the received revisions show a gap if and only if the queue was full for every event of some revision and had room for a later one |
| MetaFeed.UnseenLoss | pkg/litefake/meta.go:306-318 | with a queue of one, a batch of two, a read and another commit lose an event and show no gap |
| MetaStore.FindNode | pkg/litefake/meta.go:401-420 | the walk finds the siblings and the index of the node the ids resolve to, or reports there is none |
| MetaStore.MetaTx.RewriteAll | pkg/litefake/meta.go:458-473 | rewrites every object's paths, in whatever order the objects come |
| MetaStore.MetaTx.CheckMembers | pkg/litefake/meta.go:613-623 | refuses with the members or strips their paths |
| MetaStore.MetaTx.WriteObject | pkg/litefake/meta.go:487-535 | the object patch in place, with every refusal: what MetaRequests.ObjectPatched describes |
| MetaStore.MetaTx.AddNode | pkg/litefake/meta.go:678-708 | the node creation in place, with every refusal and its event: what MetaRequests.CreatedAt describes |
| MetaStore.MetaTx.ChangeNode | pkg/litefake/meta.go:733-800 | the node patch in place, relabel, depth and sibling checks, move, rewrite, events: what MetaRequests.NodePatched describes |
| MetaStore.MetaTx.RemoveNode | pkg/litefake/meta.go:802-816 | the node deletion in place |
| MetaStore.MetaTx.RemoveEnum | pkg/litefake/meta.go:627-637 | the enum deletion in place |
| MetaStore.MetaTx.PerformAll | pkg/litefake/meta.go:250-277 | a transaction of many operations stops at the first refusal |
| MetaStore.OfferAllKeepsOldest | pkg/litefake/meta.go:309-325 | a slow subscriber keeps the oldest events that fit and silently loses the rest |
| MetaStore.ChangeStore.PublishLocked | pkg/litefake/meta.go:309-325 | appends to the log, fans out without blocking, trims and remembers what was dropped |
| MetaStore.ChangeStore.DoMutate | pkg/litefake/meta.go:250-277 | commits or leaves everything, queues included, as it was |
| MetaStore.ChangeStore.DoSeed | pkg/litefake/meta.go:329-338 | replaces the content at a new revision with one import event |
| MetaStore.ChangeStore.DoRestart | pkg/litefake/meta.go:341-357 | forgets the log and ends every stream |
| MetaStore.ChangeStore.DoAttach | pkg/litefake/metastream.go:23-46 | registers the stream and decides its opening in one step |
| MetaStore.ChangeStore.DoDetach | pkg/litefake/metastream.go:48-53 | removes and ends the stream |
| RegaParser.RoundTrip | internal/regavm/parser.go:352-492 | for every expression, parsing its text with only the required brackets gives it back and stops at its end |
| RegaParser.ParsePrint | internal/regavm/parser.go:352-492 | for every tree of the grammar, parsing its text gives that tree and stops exactly at its end |
| RegaParser.AcceptsGrammar | internal/regavm/parser.go:362-492 | at any place the parser reads a tree and stops there if and only if the text up to there is that of the tree, the tree is well formed, and the next token does not carry it on |
| RegaParser.Unambiguous | internal/regavm/parser.go:352-362 | two trees of the grammar never share a text |
| RegaParser.ClimbSound | internal/regavm/parser.go:364-385 | what precedence climbing reads is a tree at or above the minimum precedence, written exactly so, and no operator that could extend it is left |
| RegaParser.ClimbComplete | internal/regavm/parser.go:364-385 | every tree at or above the minimum precedence, followed by nothing that extends it, is read back |
| RegaParser.PostfixReaches | internal/regavm/parser.go:408-430 | a member chain is read back link by link |
| RegaParser.PrimaryComplete | internal/regavm/parser.go:432-470 | literals, names, calls and brackets are read back |
| RegaParser.ArgumentsComplete | internal/regavm/parser.go:472-492 | argument lists are read back, the empty one included |
| RegaGrammar.MinimalMeans | internal/regavm/parser.go:352-362 | the minimal form is a tree of the grammar with the same meaning |
| RegaGrammar.MinimalIsShortest | internal/regavm/parser.go:352-362 | no text of the same meaning is shorter: every bracket of the minimal form is required |
| RegaStatements.AcceptsScripts | internal/regavm/parser.go:115-350 | a token stream is read as a script if and only if it is the text of that script in the grammar |
| RegaStatements.ScriptsUnambiguous | internal/regavm/parser.go:115-350 | two scripts of the grammar never share a text |
| RegaStatements.StmtSound | internal/regavm/parser.go:161-182 | what a statement is read as is written exactly so, and the token behind it could not have carried it on |
| RegaStatements.StmtComplete | internal/regavm/parser.go:161-182 | every statement of the grammar is read back wherever it stands |
| RegaStatements.IfSound | internal/regavm/parser.go:228-278 | the same for an if after its first word, so for elseif too |
| RegaStatements.ElseComplete | internal/regavm/parser.go:247-278 | every else part is read back: none, a block, else if, elseif |
| RegaStatements.BodyComplete | internal/regavm/parser.go:334-350 | statements up to a closing brace are read back |
| RegaStatements.StraySemicolon | internal/regavm/parser.go:334-350 | a semicolon of its own before a closing brace refuses the block |
| RegaStatements.StrayScript | internal/regavm/parser.go:334-350 | a loop whose braces hold a semicolon only is refused |
| RegaStatements.SemicolonBody | internal/regavm/parser.go:322-333 | a semicolon in the place of a body makes the next statement the body, or leaves none at the end of the script |
| RegaTidy.BodyScript | internal/regavm/parser.go:322-333 | a script that shows it |
| RegaTidy.ScriptRoundTrip | internal/regavm/parser.go:115-350 | for every program, parsing its printed text gives it back; braces are printed only around lists and around a statement that would take the else of an outer if |
| RegaTidy.ElseIsNearest | internal/regavm/parser.go:228-278 | in no script of the grammar does an else follow a statement that ends with an open if |
| RegaTidy.TidyMeans | internal/regavm/parser.go:161-350 | the printed tree is one of the grammar and means the statement it was printed from |
| RegaCut.PanicsExactly | internal/regavm/parser.go:280-301 | the parser looks past its last token if and only if the script stops after `foreach (` where a statement may begin |
| RegaCut.PanicsWhenCutOff | internal/regavm/parser.go:280-301 | any script that does not end so is read within its tokens, and none that ends so is ever accepted |
| RegaReadings.TwoOperators | internal/regavm/parser.go:352-385 | for every two operators of a literal table of levels, the one of the tighter level is read first, and in one level the left one |
| RegaReadings.PrefixThenOperator | internal/regavm/parser.go:387-430 | a prefix takes the member chain behind it and no operator |
| RegaReadings.IfReads | internal/regavm/parser.go:228-271 | what stands in the first braces is done when the condition holds, what stands after else otherwise |
| RegaReadings.ElseIfReads | internal/regavm/parser.go:249-278 | after elseif, or else and if, stands a condition that is looked at when the first does not hold |
| RegaReadings.LoopsRead | internal/regavm/parser.go:280-321 | a foreach names its variable before its list, a while its condition |
| RegaReadings.SimpleRead | internal/regavm/parser.go:190-226 | declarations, assignments and bare expressions are told apart by their first tokens |
| RegaReader.Parser.BinaryFrom | internal/regavm/parser.go:364-385 | the climbing loop, advancing the position |
| RegaReader.Parser.UnaryExpr | internal/regavm/parser.go:387-406 | prefix operators and references, advancing the position |
| RegaReader.Parser.PostfixExpr | internal/regavm/parser.go:408-430 | the loop over member links, advancing the position |
| RegaReader.Parser.PrimaryExpr | internal/regavm/parser.go:432-470 | primaries, advancing the position |
| RegaReader.Parser.Arguments | internal/regavm/parser.go:472-492 | the loop over arguments, advancing the position |
| RegaReader.Parser.Program | internal/regavm/parser.go:115-132 | the loop over statements up to the end of the script |
| RegaReader.Parser.Statement | internal/regavm/parser.go:161-182 | skips semicolons and reads one statement, or none at the end |
| RegaReader.Parser.Dispatch | internal/regavm/parser.go:169-188 | the choice of the kind of statement by its first one or two tokens |
| RegaReader.Parser.Declaration | internal/regavm/parser.go:190-203 | a declaration with its optional initialiser and semicolon |
| RegaReader.Parser.SimpleStatement | internal/regavm/parser.go:206-226 | an assignment, or back to the start and a bare expression |
| RegaReader.Parser.IfStatement | internal/regavm/parser.go:228-270 | condition, block and else part |
| RegaReader.Parser.ElseBranch | internal/regavm/parser.go:247-278 | elseif, else if, else or nothing |
| RegaReader.Parser.ForeachStatement | internal/regavm/parser.go:280-301 | variable, list and body, or the look past the last token |
| RegaReader.Parser.WhileStatement | internal/regavm/parser.go:303-320 | condition and body |
| RegaReader.Parser.Block | internal/regavm/parser.go:322-350 | the loop over statements up to a closing brace, or one statement |
| RegaInterp.CostBound | internal/regavm/interp.go:95-177 | whatever the object model answers, a run ends after at most the cost read off the text, keeps declared names and never takes output back |
| RegaInterp.StmtWithin | internal/regavm/interp.go:95-168 | one statement stays within its cost, loops within the cap times what they repeat |
| RegaInterp.ExprWithin | internal/regavm/interp.go:179-359 | one expression stays within its cost, whichever branches short-circuit or namespaces take |
| RegaInterp.LoopWithin | internal/regavm/interp.go:148-163 | a while from any round on stays within the rounds left |
| RegaInterp.EachWithin | internal/regavm/interp.go:132-146 | a foreach from any item on stays within the rounds left, however long the list is |
| RegaInterp.NestReaches | internal/regavm/interp.go:132-146 | the bound is reached exactly by loops nested to any depth over a list of the capped length |
| RegaInterp.SilentMeans | internal/regavm/interp.go:179-287 | an expression without calls always has the value an eager reading gives it, however short-circuits cut it, and changes nothing |
| RegaMeaning.TruthIs | internal/regavm/value.go:112-128 | what counts as true: all but false, zero, no object, and what is empty or says false |
| RegaMeaning.NumberIs | internal/regavm/value.go:88-110 | the number each value counts as |
| RegaMeaning.TextIs | internal/regavm/value.go:52-86 | the text of each value, lists joined by tabs |
| RegaMeaning.ItemsAre | internal/regavm/value.go:135-150 | a foreach walks the items of a list or the non-empty words between the tabs of a text |
| RegaMeaning.SameIs | internal/regavm/value.go:154-180 | when two values are equal: objects by themselves, truth as truth, numbers as numbers, else as text |
| RegaMeaning.OperatorIs | internal/regavm/interp.go:221-287 | for every operator the value it gives on its operands, and no other |
| RegaDerivation.ExprSound | internal/regavm/interp.go:179-458 | what the rules derive for an expression is its value, its output and the questions asked, or its failure |
| RegaDerivation.ExprBuilt | internal/regavm/interp.go:179-458 | and whatever an evaluation does has a derivation |
| RegaExecution.ValueIsDerived | internal/regavm/interp.go:179-458 | an expression has a derivation to a value and a state if and only if it is evaluated so |
| RegaExecution.MeansWhatRuns | internal/regavm/interp.go:81-177 | a program has a derivation to an end, variables, output and questions asked, if and only if the interpreter ends so |
| RegaExecution.MeansOnce | internal/regavm/interp.go:81-93 | every script means exactly one output and one end, those of its run |
| RegaRun.Interpreter.Evaluate | internal/regavm/interp.go:179-287 | evaluation with its side effects, short-circuits included |
| RegaRun.Interpreter.EvaluateMember | internal/regavm/interp.go:331-458 | member calls: namespaces no variable hides, system.Exec with its out-parameter, objects, null and scalars |
| RegaRun.Interpreter.EvaluateArgs | internal/regavm/interp.go:318-328 | arguments left to right up to the first failure |
| RegaRun.Interpreter.CallBuiltin | internal/regavm/interp.go:290-315 | the writing functions append to the output |
| RegaRun.Interpreter.Execute | internal/regavm/interp.go:95-168 | every statement kind on the one set of variables: what RegaExecution.MeansWhatRuns describes |
| RegaRun.Interpreter.RunForeach | internal/regavm/interp.go:132-146 | the counted foreach loop |
| RegaRun.Interpreter.RunWhile | internal/regavm/interp.go:148-163 | the counted while loop |
| RegaRun.Run | internal/regavm/interp.go:81-93 | a whole run: output and failure are what the script means by the rules, and its cost |
| RegaRun.RunTokens | internal/regavm/interp.go:81-93 | a refused script runs nothing, an accepted one gives what it means by the rules |
| EventRing.ResumeExact | pkg/litefake/ring.go:211-232 | a resume at the current boot is a gap exactly when the next message is no longer held, and otherwise replays exactly the messages after the position |
| EventRing.ReconnectExact | pkg/litefake/ring.go:211-232 | a client that returns with the id of its last frame is told of a gap or gets exactly what followed |
| EventRing.OwnPosition | pkg/litefake/ring.go:211-222 | the id of a frame is read back as its position |
| EventRing.Contiguous | pkg/litefake/ring.go:126-165 | the held seqs are a contiguous run ending at the newest |
| EventRing.PublishKeeps | pkg/litefake/ring.go:126-149 | a publish keeps that, and leaves at most maxEvents held |
| EventRing.PruneKeeps | pkg/litefake/ring.go:153-165 | pruning keeps a suffix within both bounds |
| EventRing.PruneDropsOnlyDue | pkg/litefake/ring.go:153-165 | pruning drops nothing that is neither too old nor in excess |
| EventRing.Ring.Publish | pkg/litefake/ring.go:126-149 | stores the next message and offers it to each reader, which queues it or counts the loss |
| EventRing.Ring.PruneLocked | pkg/litefake/ring.go:153-165 | drops what is in excess or too old |
| EventRing.Ring.Attach | pkg/litefake/ring.go:170-207 | registers a reader unless a limit is reached, and decides its opening in one step |
| EventRing.Ring.ResumeLocked | pkg/litefake/ring.go:211-232 | the resume decision |
| EventRing.Ring.Detach | pkg/litefake/ring.go:247-253 | removes and stops one reader |
| EventRing.Ring.ForceOverflow | pkg/litefake/ring.go:273-279 | counts one loss on every reader |
| EventRing.Ring.Restart | pkg/litefake/ring.go:292-301 | a new boot id, position zero, nothing held, every reader stopped |
| EventStream.Reachable | pkg/litefake/stream.go:168-248 | the invariant of ring and stream holds in every state any interleaving reaches |
| EventStream.StepKeeps | pkg/litefake/stream.go:215-247 | every publish, prune, attach, delivery, tick, forced loss, gap, restart and detach keeps it |
| EventStream.PingMeansNothingLost | pkg/litefake/stream.go:230-246 | a ping is written only when everything published since the attach has been taken or is queued, and everything taken that passes the filter was written |
| EventStream.LossEndsStream | pkg/litefake/stream.go:230-234 | once a message is lost the next tick reports the overflow and ends the stream |
| EventStream.ExactlyOnce | pkg/litefake/ring.go:170-232 | until a restart, for every attached stream: replay followed by what is published to the reader is every message after where it starts exactly once, in order; it starts at its position if that was replayed, else at the attach |
| EventStream.ClosedIsSilent | pkg/litefake/stream.go:215-247 | a closed stream writes nothing more |
| StreamWords.OpenStreamWrote | pkg/litefake/stream.go:119-282 | what an open stream has written: hello under the id of its position, a resync with the text of its reason if it could not resume, then for each replayed and taken message no filter leaves out one frame with its id, type and data, in order |
| StreamWords.FilterIs | pkg/litefake/stream.go:60-95 | which messages a filter leaves out, by type, interface, key and address or device |
| StreamWords.TickIs | pkg/litefake/stream.go:230-246 | what a tick writes and when it ends the stream: an overflow told by its name, a revoked credential without a word, else a ping |
| StreamWords.PublishIs | pkg/litefake/ring.go:126-168 | a published message carries the next number, its time and what it was published with; the history then starts at the first message neither in excess nor after that too old |
| EventStream.Session.constructor | pkg/litefake/stream.go:253-282 | the opening: connected, hello, a resync or the filtered replay, up to the first write that fails and ends the stream |
| EventStream.Session.Receive | pkg/litefake/stream.go:223-229 | one delivery: filtered, written, or the end of the stream |
| EventStream.Session.Tick | pkg/litefake/stream.go:230-246 | one heartbeat: overflow, revoked credential, or ping |
| BinCodec.RoundTrip | internal/binrpc/decode.go:33-58 | what WriteRequest writes ReadRequest reads back, up to nil and double quantisation, if and only if the parameters nest at most 64 deep; following bytes are untouched |
| BinCodec.DeepIsRefused | internal/binrpc/decode.go:133-140 | a request nested 65 deep is written and refused when read |
| BinCodec.LargeComesBack | internal/binrpc/decode.go:160-168 | a request with 2^994 is read back with an infinity |
| BinCodec.DecodeEncoded | internal/binrpc/decode.go:133-184 | one value read back wherever it occurs, or refused exactly when it nests too deep |
| BinCodec.CountsFit | internal/binrpc/decode.go:213-219 | an honest count never exceeds what the guard allows |
| BinCodec.MemberCountsFit | internal/binrpc/decode.go:186-197 | the same for struct members |
| BinWire.EncodeIs | internal/binrpc/encode.go:100-214 | bytes are the encoding of a value if and only if they have its form: the literal tag of its kind, then numbers as big-endian words, texts with their length, lists and structs with their count |
| BinWire.WriteIs | internal/binrpc/encode.go:18-98 | a request is written as 0x42 0x69 0x6E 0, the size, the name, the count and the parameters, or not at all |
| BinWire.DecodeIs | internal/binrpc/decode.go:133-242 | bytes are read as a value that ends at a place if and only if they have its form up to there and it nests at most 64 deep |
| BinWire.ReadIs | internal/binrpc/decode.go:33-131 | a stream is read as a request if and only if it begins with the frame, a size of at most 10 MiB and the form of that request |
| BinCanon.CanonicalInverse | internal/binrpc/decode.go:33-58 | for any accurate logarithm, an accepted payload with a method is byte for byte the encoding of its value if and only if its bool bytes are 0 or 1 and its doubles normal pairs |
| BinCanon.OddBool | internal/binrpc/decode.go:133-184 | a payload whose bool byte is 2 is accepted and encodes to one whose byte is 1 |
| BinCanon.DecodedMatches | internal/binrpc/decode.go:133-184 | the same for every value inside; whatever it encodes to has exactly the length read |
| BinCanon.AllocationBound | internal/binrpc/decode.go:133-229 | preallocated slots total at most (64 + 2) per four bytes, and at most one per four bytes of an accepted payload |
| BinCanon.DecodeAllocates | internal/binrpc/decode.go:133-184 | the same for every value, by the levels still open |
| BinDouble.MantissaRange | internal/binrpc/encode.go:222-241 | for any accurate logarithm the mantissa has about 30 bits and always fits, and a number is refused exactly when the logarithm gives it an exponent below -1023 |
| BinDouble.QuantisationError | internal/binrpc/decode.go:160-168 | the decoded value never exceeds the original and misses it by less than one part in 2^29, or is an infinity, exactly from 2^994 on and for negative numbers less than one unit of the mantissa before |
| BinDouble.SafeRange | internal/binrpc/decode.go:160-168 | up to 2^994 - 2^964 nothing overflows, from 2^994 on everything does, whatever the logarithm |
| BinDouble.QuantiseTwice | internal/binrpc/encode.go:222-241 | a decoded value decodes to itself again, unless the number was negative and the logarithm put it below the power of two it lies above |
| BinDouble.NegativeDrifts | internal/binrpc/encode.go:222-241 | just below -1 it does, with a logarithm that is one too small there |
| BinDouble.Float64Encodes | internal/binrpc/encode.go:222-241 | of the finite doubles those from 2^-1023 on are encoded, those up to 2^-1024 - 2^-1054 refused, and the encoded ones up to 2^994 - 2^964 come back finite |
| BinDouble.PairFixed | internal/binrpc/decode.go:160-168 | for every wire pair: what it decodes to is encoded again and keeps its value if and only if it is zero at an exponent below 1024, or vanishes, or neither overflows nor is too small and has a mantissa below 2^30 or an even one |
| BinDouble.PairNormal | internal/binrpc/encode.go:222-241 | for every wire pair: it is its own encoding if and only if it is normal |
| BinDouble.EitherMantissa | internal/binrpc/encode.go:222-241 | of the two pairs of a power of two either is normal, with one accurate logarithm or another |
| BinDouble.LargeIsInfinite | internal/binrpc/decode.go:160-168 | 2^994 is written and comes back as an infinity, which is refused |
| BinDouble.OddMantissa | internal/binrpc/decode.go:160-168 | the mantissa 2^30 + 1 comes back as another number |
| BinIO.ByteReader.ReadValue | internal/binrpc/decode.go:133-184 | result, position and slots allocated are those of the function on bytes, which BinWire.DecodeIs describes |
| BinIO.ByteReader.ReadStruct | internal/binrpc/decode.go:186-211 | the member loop over preallocated slots |
| BinIO.ByteReader.ReadNValues | internal/binrpc/decode.go:213-229 | the value loop over preallocated slots |
| BinIO.ByteReader.ReadRawString | internal/binrpc/decode.go:232-242 | a length and that many bytes, or an error |
| BinIO.ByteReader.ReadWord | internal/binrpc/decode.go:251-258 | four bytes big-endian, or an error |
| BinIO.ByteReader.ReadN | internal/binrpc/decode.go:260-272 | never past the payload |
| BinIO.ReadRequestFrom | internal/binrpc/decode.go:33-58 | the whole request, refused unless every byte is used |
| BinIO.Buffer.WriteValue | internal/binrpc/encode.go:100-122 | appends the encoding, which BinWire.EncodeIs describes, or fails exactly when there is none |
| BinIO.Buffer.WriteParamArray | internal/binrpc/encode.go:84-97 | the count and the values |
| BinIO.Buffer.WriteMembers | internal/binrpc/encode.go:177-196 | the count, names and values of a struct |
| BinIO.Buffer.WriteRawString | internal/binrpc/encode.go:151-161 | a length and the Latin-1 bytes, or an error |
| BinIO.Buffer.WriteDouble | internal/binrpc/encode.go:163-175 | mantissa and exponent, or an error |
| BinIO.WriteRequestTo | internal/binrpc/encode.go:18-30 | the framed request, refused when the method is empty or the payload too large |
| BinIO.Latin1Bytes | internal/binrpc/latin1.go:26-35 | strict: one rune beyond Latin-1 refuses the string |
| BinIO.Latin1BytesLossy | internal/binrpc/latin1.go:47-57 | lossy: such a rune becomes a question mark, others are unchanged |
| BinIO.Latin1Runes | internal/binrpc/latin1.go:14-20 | one rune per byte |
| Params.ClampExact | internal/ccu/rpcfunctions.go:1656-1688 | between ordered bounds clamping keeps exactly the special values, values in range and NaN; anything else becomes the bound it is beyond |
| Params.StoredFloat | internal/ccu/rpcfunctions.go:958-975 | what a FLOAT write stores, exactly: special values and values in range as they are, others the bound they are beyond; writing it again stores the same |
| Params.StoredInteger | internal/ccu/rpcfunctions.go:958-975 | the same for INTEGER writes of any value and bounds of any form that lie within 64 bits, after conversion to an integer |
| Params.StoredLabel | internal/ccu/rpcfunctions.go:958-966 | a label is stored as its first position in the value list, or refused, exactly when it is not listed or its position is beyond a numeric bound |
| Params.LabelIndex | internal/ccu/rpcfunctions.go:1625-1633 | the first position of a label, none exactly when it is not in the list |
| ParamWrites.ConvertedIs | internal/ccu/rpcfunctions.go:1610-1765 | for every type exactly what a write stores: truth values for BOOL, text for STRING, the number cut and held between its bounds for INTEGER and FLOAT, the first position of a label or a position within its limits for ENUM, else the value; and refused exactly when there is none |
| ParamWrites.JudgedIs | internal/ccu/rpcfunctions.go:914-976 | whether a written parameter is refused, only a trigger, or stored, and as what |
| ParamWrites.DefaultsAre | internal/ccu/rpcfunctions.go:1579-1608 | without stored values a read answers the default of every parameter that is not internal, ENUM labels as positions |
| ParamWrites.WriteThenRead | internal/ccu/rpcfunctions.go:872-1005 | after any run a write of one parameter is refused, a trigger, or stored, and the next read answers what it would have before, overlaid with the stored value and what the device sets by itself |
| MasterModel.HmipFaults | internal/ccu/mastermodel.go:126-230 | after any writes to a channel that started empty, an HmIP write faults exactly when some name ever sent is undescribed or is writable with an invalid last value |
| MasterModel.HmipStores | internal/ccu/mastermodel.go:146-166 | the stored values and the poisoning depend on the last writes only |
| MasterModel.HmipAbsorbs | internal/ccu/mastermodel.go:143-167 | one more write is absorbed into the last writes |
| MasterModel.PoisonStays | internal/ccu/mastermodel.go:147-151 | once an undescribed name was sent every later write faults, an empty one included |
| MasterModel.HmipIdempotent | internal/ccu/mastermodel.go:325-363 | a stored value would be stored as it is and judged the same |
| MasterModel.BidcosObeys | internal/ccu/mastermodel.go:168-186 | over any writes rfd never faults, and every stored value is writable and within its description, bounds missing, textual or numeric |
| MasterModel.BidcosInBounds | internal/ccu/mastermodel.go:370-412 | whatever arrives, a stored number lies between its bounds and a stored position inside the value list, unless a half-bounded INTEGER gets a number beyond 64 bits |
| MasterModel.OpenEndedFails | internal/ccu/mastermodel.go:370-412 | in each of those cases there is a platform that stores it out of bounds |
| MasterModel.BidcosIdempotent | internal/ccu/mastermodel.go:370-412 | a stored value would be stored as it is, if and only if it is within its bounds |
| MasterModel.ClampToBounds | internal/ccu/mastermodel.go:479-487 | the clamped number is within the bounds there are, and unchanged if it was |
| MasterModel.RepeatChangesNothing | internal/ccu/mastermodel.go:176-185 | a write sent twice leaves the channel alone the second time, and is reported pending again if and only if it gives a NaN, bare or nested, to a writable parameter of none of the six known types |
| MasterModel.NaNRepeats | internal/ccu/mastermodel.go:510-517 | a NaN for a parameter of another type is pending again |
| MasterModel.RepeatIsQuiet | internal/ccu/mastermodel.go:176-185 | with known types a repeated write is always quiet |
| MasterModel.IndexOf | internal/ccu/mastermodel.go:499-506 | the first position of a label, or -1 exactly when it is not there |
| MasterValues.HmipStoredIs | internal/ccu/mastermodel.go:325-366 | for every type which values hmipserver takes and as what; anything else it stores as it came and calls invalid |
| MasterValues.BidcosStoredIs | internal/ccu/mastermodel.go:370-412 | for every type which values rfd takes and as what, rounded, held within bounds or moved to the nearest position; anything else it ignores |
| MasterValues.HmipNames | internal/ccu/mastermodel.go:143-167 | what becomes of each name of a write: stored, accepted, rejected or left alone |
| MasterValues.HmipWriteIs | internal/ccu/mastermodel.go:191-211 | when a write poisons, when it fails, and when CONFIG_PENDING is raised or cleared |
| MasterValues.BidcosNames | internal/ccu/mastermodel.go:168-187 | the same for rfd: only what differs from what a reader is shown is stored |
| MasterValues.BidcosWriteIs | internal/ccu/mastermodel.go:188-214 | a write to rfd never fails, and CONFIG_PENDING is raised for a while when something is stored |
| ParamCache.CacheTransparent | internal/ccu/rpcfunctions.go:709-766 | after any run a read answers the description's defaults overlaid with the stored values |
| ParamCache.GetKeeps | internal/ccu/rpcfunctions.go:728-766 | a read answers what a store without a cache would and keeps the cache so |
| ParamCache.StepKeeps | internal/ccu/rpcfunctions.go:872-1031 | every read, write, silent write, deletion and load keeps the cache current |
| ParamCache.LoadExact | internal/ccu/rpcfunctions.go:326-355 | a load over a description in use is noticed by readers exactly when nothing was cached or both come to the same values |
| ParamCache.PutPartial | internal/ccu/rpcfunctions.go:914-1005 | a write that fails or triggers part-way leaves exactly what a complete write of the names before it leaves |
| ParamCache.PutFrame | internal/ccu/rpcfunctions.go:977-1005 | a write touches no other paramset |
| ParamCache.DeleteForgets | internal/ccu/rpcfunctions.go:392-414 | deletion clears the caches always, and the stored values exactly when the address is spelled in upper case or there were none |
| ParamCache.DeleteForgetsAll | internal/ccu/rpcfunctions.go:392-414 | after any run with upper-case device lists, deletion leaves no stored value, no cache entry and no poisoning of a device it owns |
| ParamCache.PoisonExact | internal/ccu/mastermodel.go:147-151 | after any run of reads, writes, loads and deletions, an address is poisoned if and only if some HmIP MASTER write sent it an undescribed name and no later deletion owned it |
| ParamCache.PoisonFaults | internal/ccu/mastermodel.go:206-209 | while it is, every HmIP MASTER write to it faults |
| ParamCache.ForgetAllExact | internal/ccu/rpcfunctions.go:555-568 | what remains after clearing a list of addresses |
| ParamStore.Store.Read | internal/ccu/rpcfunctions.go:709-766 | the cached read; the answer is no table of the store |
| ParamStore.Store.ReadTwice | internal/ccu/rpcfunctions.go:728-766 | a caller that overwrites the answer it got reads the same answer again |
| ParamStore.Store.Write | internal/ccu/rpcfunctions.go:872-899 | the default and the modelled write paths: what ParamWrites.WriteThenRead and MasterValues describe |
| ParamStore.Store.WriteAll | internal/ccu/rpcfunctions.go:914-1005 | the loop over names, returning at the first refusal or trigger |
| ParamStore.Store.WriteOne | internal/ccu/rpcfunctions.go:977-1004 | the value and its follow-ups, stored in place and marked stale |
| ParamStore.Store.WriteModel | internal/ccu/mastermodel.go:126-230 | a MASTER write on the live table of the channel |
| ParamStore.Store.WriteSilently | internal/ccu/ramps.go:98-110 | maintenance and ramp values, marked stale |
| ParamStore.Store.TableFor | internal/ccu/mastermodel.go:234-242 | the live table of a channel, created when missing |
| ParamStore.Store.ClearAddress | internal/ccu/rpcfunctions.go:555-568 | what is dropped by spelled and by upper-cased address |
| ParamStore.Store.DeleteDevice | internal/ccu/rpcfunctions.go:392-414 | one pass over the device list |
| ParamStore.PutHmip | internal/ccu/mastermodel.go:143-167 | the sorted loop that stores everything |
| ParamStore.PutBidcos | internal/ccu/mastermodel.go:143-186 | the sorted loop that stores what is usable and new |
| ParamStore.HoldsInvalid | internal/ccu/mastermodel.go:192-200 | whether any stored described value is invalid, in whatever order |
| ParamStore.PutMasterModel | internal/ccu/mastermodel.go:126-230 | table, poisoning, fault, pending flag, accepted and rejected names of one write |
| DeviceDiff.Converges | internal/ccu/initsemantics.go:53-98 | with unique named devices the client ends with exactly our addresses in our versions if and only if it held no conflicting copies of a device it had up to date |
| DeviceDiff.StaleDuplicate | internal/ccu/initsemantics.go:53-98 | a client list with a stale and a current copy of one device gets nothing deleted or sent and does not mirror |
| DeviceDiff.SecondRunQuiet | internal/ccu/initsemantics.go:53-98 | whatever the client held, a second run deletes and sends the HmIP devices and nothing else |
| DeviceDiff.HeldAfter | internal/ccu/initsemantics.go:64-82 | exactly what the client holds after deletions and additions |
| DeviceDiff.BookAfter | internal/ccu/initsemantics.go:55-60 | after the diff the client's book lists every device of ours in our version |
| DeviceDiff.Reconcile | internal/ccu/initsemantics.go:53-82 | the loops that build both lists |
| TokenName.SlugShape | pkg/litefake/pairing.go:606-628 | a slug is 2 to 28 characters of [a-z0-9-] without a double dash or a dash in front; a dash at the end only when nothing was usable |
| TokenName.SlugStable | pkg/litefake/pairing.go:606-628 | a slug is its own slug exactly when something of the text was usable |
| TokenName.SlugOfNothing | pkg/litefake/pairing.go:606-628 | a text without a letter or digit shows it |
| SlugWords.SlugIs | pkg/litefake/pairing.go:606-628 | the slug of a text is its words joined by dashes, cut after 28 characters and not at a dash, and led by app- when fewer than two are left |
| SlugWords.SplitsSomehow | pkg/litefake/pairing.go:606-617 | every text splits into its words, the longest runs of letters and digits |
| SlugWords.NameIs | pkg/litefake/pairing.go:632-646 | a token is named after its slug, or else with the smallest decimal number from 2 on that gives a name no token has |
| TokenName.Slugify | pkg/litefake/pairing.go:606-628 | the loop that builds the slug |
| TokenName.SomeFree | pkg/litefake/pairing.go:636-643 | among one more candidate than there are tokens, one is free |
| TokenName.CandidatesDiffer | pkg/litefake/pairing.go:640-643 | no two candidates are the same name |
| TokenName.FindFree | pkg/litefake/pairing.go:640-643 | the search ends with the first candidate no token has |
| TokenName.AddKeepsUnique | pkg/litefake/pairing.go:632-646 | names stay unique however many tokens are paired |
| TokenName.Tokens.AddPairedToken | pkg/litefake/pairing.go:632-646 | stores the token under the first free name |
| Pairing.StepMoves | pkg/litefake/pairing.go:246-257 | in every step a request keeps its terms and only leaves pending, to approved, rejected or expired; none appears but the one just accepted |
| Pairing.ApprovalEarned | pkg/litefake/pairing.go:552-580 | in any run an approval succeeds exactly for a pending request in time whose nonce is revealed and whose code matches, and that nonce opens the commitment |
| Pairing.RunSincere | pkg/litefake/pairing.go:395-408 | in every reachable state a revealed nonce opens its commitment and an approved request has one |
| Pairing.HandedOnce | pkg/litefake/pairing.go:447-465 | a token is handed out at most as often as approvals created it, in any run |
| Pairing.TokenNeedsSecret | pkg/litefake/pairing.go:375-465 | in any run a token goes only to a poll, or to a woken wait of a poll, that gave the secret of the request, which is approved and whose shown nonce opens its commitment |
| Pairing.RunWaiting | pkg/litefake/pairing.go:388-465 | in every reachable state each waiting poll has proved the secret of the request it waits for, and its nonce is shown |
| Pairing.HandOutSpends | pkg/litefake/pairing.go:453-457 | each hand-out uses up a request that held the token |
| Pairing.RunBounded | pkg/litefake/pairing.go:293-307 | in every reachable state at most five requests are pending and at most one per address and app |
| Pairing.KeyInjective | pkg/litefake/pairing.go:282-282 | the limit keys tell addresses and apps apart |
| Pairing.TenPerHour | pkg/litefake/pairing.go:312-322 | in any run of a clock that never goes back, no window of an hour accepts more than ten requests of an address |
| Pairing.RunPaced | pkg/litefake/pairing.go:312-322 | the kept history is enough to decide that |
| Pairing.MuteHolds | pkg/litefake/pairing.go:308-311 | for ten minutes after a rejection no request of that app from that address is accepted, whatever happens in between |
| PairingAnswers.AskedIs | pkg/litefake/pairing.go:260-346 | in any run a request is accepted if and only if it is well-formed, pairing is on, none of its app and address awaits approval, fewer than five do at all, its app was not rejected within ten minutes, and fewer than ten of its address were accepted within the hour; with each other answer exactly |
| PairingAnswers.PolledIs | pkg/litefake/pairing.go:365-465 | how every poll is answered, by secret, nonce, wait, haste and standing, and what it leaves |
| PairingAnswers.WokenIs | pkg/litefake/pairing.go:430-465 | how a poll that waited is answered |
| PairingAnswers.ApprovedIs | pkg/litefake/pairing.go:552-580 | what an approval comes to: unknown, not ready, a wrong code that rejects and mutes for ten minutes, or a token under the first free name with the scopes asked for |
| PairingAnswers.RejectedIs | pkg/litefake/pairing.go:583-595 | a pending request is rejected and its app muted for ten minutes, even past its time |
| PairingAnswers.WithdrawnIs | pkg/litefake/pairing.go:469-478 | a request is withdrawn by whoever has its secret |
| PairingDesk.Desk.ExpireLocked | pkg/litefake/pairing.go:246-257 | forgets and expires requests in whatever order |
| PairingDesk.Desk.Scan | pkg/litefake/pairing.go:293-303 | whether the app has a pending request, and else how many are pending |
| PairingDesk.WithinHour | pkg/litefake/pairing.go:312-317 | the acceptances less than an hour old |
| PairingDesk.Desk.HandleAsk | pkg/litefake/pairing.go:260-346 | all limits and the new request |
| PairingDesk.Desk.HandlePoll | pkg/litefake/pairing.go:388-430 | secret, reveal and everything up to the wait |
| PairingDesk.Desk.WaitFor | pkg/litefake/pairing.go:409-430 | slow-down, parking, or the answer |
| PairingDesk.Desk.HandleWake | pkg/litefake/pairing.go:439-465 | a parked poll goes on |
| PairingDesk.Desk.AnswerFor | pkg/litefake/pairing.go:447-465 | the state, or the token once |
| PairingDesk.Desk.HandleDelete | pkg/litefake/pairing.go:469-478 | withdrawn with the right secret |
| PairingDesk.Desk.ApprovePairing | pkg/litefake/pairing.go:552-580 | unknown, not ready, wrong code with muting, or the granted token |
| PairingDesk.Desk.RejectPairing | pkg/litefake/pairing.go:583-595 | rejects a pending request and mutes its app, without expiring others first |

## Left out

- MetaSafety.ApplyKeepsWellFormed: the seeded content has slash-free enum ids, distinct sibling ids and depth at most 8, which the source does not check in a seeded document; object paths may dangle everywhere but here and in MetaSafety.MembersGone and MetaRuns.RunWellFormed.
- MetaStore.MetaTx.ChangeNode: tree nodes are values written back into their list, so sharing of node pointers inside a tree is not captured.
- MetaReplica.PatchNodeFollows: sibling order is ignored, since the events carry no position.
- MetaRuns.ReplicaCatchesUp: excludes seeds after the copy was taken, since an import event makes the client fetch everything again.
- EventStream.ExactlyOnce: speaks of one arbitrary stream while all others act as the environment, and only until a restart; afterwards a stopped reader may still emit a message of the new boot under its old id.
- RegaInterp.CostBound: number arithmetic is over exact reals and text methods, formatting, time and the object model are parameters.
- RegaParser.AcceptsGrammar: starts from tokens; the lexer is not modelled.
- RegaReader.Parser.ElseBranch: the source also rewrites the word elseif in its token list, which nothing reads again.
- BinDouble.QuantisationError: of the library's logarithm only its accuracy around powers of two is assumed, and math.Pow of a whole power of two is exact or overflows; a negative zero is a zero.
- BinCodec.RoundTrip: responses and faults share the value encoding and are left out; sizes are those of a 64-bit build.
- MasterModel.BidcosObeys: bounds are in order, an INTEGER has whole ones within 64 bits where it has any, and descriptions do not change; numbers beyond 64 bits to a half-bounded INTEGER are left to MasterModel.OpenEndedFails.
- MasterModel.HmipFaults: the CONFIG_PENDING flag is only what one write asks for; its timer and its sharing between the channels of a device are left out.
- ParamCache.CacheTransparent: device and description lists come with upper-case addresses and do not change while cached, as LoadExact explains; LINK peers and the persistence file are left out.
- ParamStore.Store.WriteOne: the response table is a parameter, and the events fired after a write are left out.
- DeviceDiff.Converges: needs unique named devices on the server side, which its catalogue provides.
- Pairing.HandedOnce: counts per token secret; that secrets do not repeat is up to the random source.
- Pairing.TokenNeedsSecret: random request ids do not repeat within a run.
- PairingDesk.Desk.HandlePoll: one clock reading per locked section; the header parsing around it is left out.
- Metadata: cleaning of names, JSON size limits, HTTP parsing of patches, bulk requests as such, and the file the store may be saved to.
- Deliberate deviations the fake can be switched to (dropping events, other status codes, resync with an id).
- HTTP routing, TLS, listeners, SSDP, XML-RPC and JSON-RPC, sessions, backups, the embedded device catalogue, scope tables and the command line.
- The event dispatchers of registered clients, device snapshots on a stream, and ramps as timers.
