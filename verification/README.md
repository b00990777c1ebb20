# Dafny models of the suitcase library

Suitcase is a C library of building blocks for daemons.  This project models six
of its parts in Dafny and proves what they are for:

* **The threaded AVL tree** (`tree.c`).  `TreeShape` has the pure tree, a zipper
  for the path that a cursor remembers, and what rotations and rebalancing do to
  contents, balances and heights.  `TreeClimb` has the climbs after an insertion
  and a removal.  `TreeHeap` ties the tree to nodes with child pointers, flags,
  balances and threads; a ghost map from nodes to their fields stands for the
  heap.  `TreeSplice`, `TreePath`, `TreePlace` and `TreeSteps` are the lemmas for
  the pointer code in `TreeClass`, which has the tree with its methods.
  `TreeOrder` has the reference (an unordered list searched by the comparator) and
  the Fibonacci bound, `TreeLiteral` the difference between the insertion climb as
  written and the same climb carried to the root, `TreeSpoil` what a removal does to
  the trees that the insertion as written leaves, `TreeRuns` whole runs of both, and
  `TreeWalk` the walks.
* **The object mapper** (`dbsimplebase.c`, `dbsimple_sqlite3.c`, `dbsimple.c`).
  `Schema` has record types and columns, `ObjectGraph` and `Fetch` turn rows into
  a graph with backpatches, `FetchMeaning` says what that graph is, `Reach`, `Traverse`, `Bind`, `Persist` and `Commit`
  write the graph back, `RoundTrip` puts the two together, `FetchPlan` clones
  definitions and finds statements, `ObjectOrder` has the order of the object map.
* **Calendar time** (`iso8601.c`).  `Calendar` is the calendar the code counts in,
  `Normalize` the normalising loop and the addition of periods, `Period` the parser.
* **The option parser** (`longgetopt.c`).  `Getopt` reads a command line once from
  left to right; `LongGetopt` is the code that permutes argv over many calls, and
  `GetoptCalls` says what each call gives.
* **The thread registry and the fallback barrier** (`janitor.c`).  `Barrier`,
  `Rings`, `Threads` and `Registry` have the lock-protected steps, in any order.

## Conventions and assumptions

Code that changes fields, arrays or global lists is modelled by classes and methods
with loops; each method is tied to a function, and the function's properties are
proved as lemmas.  Where a property fails in the code, the code is kept, and a lemma
says exactly when the property holds.

* Tree: an item is an address and 0 is NULL, so a stored NULL cannot be told from
  an absent item (as in the code).  The comparator is a total preorder.  A flag
  `toRoot` selects between the insertion climb as written, whose guard at tree.c:255
  stops it below the root, and the climb carried through the NULL-parent case that
  its body handles.  The repository's README.md:29 calls the tree red-black; the
  code is AVL, and the model follows the code.
* Mapper: the pointer map is an index, by address, of the objects that have data.  A
  removed object leaves it when its data pointer is cleared; the C keeps the record
  in the tree, and it is assumed that no later search passes it, since it would be
  compared with a NULL address.  An object enters the index once: it is assumed that
  none that has its turn at a commit was first met through a reference to it before
  its row was read.  The C inserts such an object into the pointer map without data
  (dbsimplebase.c:227) and again when it gets its data (dbsimplebase.c:230-232), and
  it may then have two nodes and two turns.  While rows
  are fetched, a data block is known by the key of its object; at commit it is known
  by its address.  Ids are unbounded integers.  Fields of different kinds do not
  share an offset.  Fetched keys are unique.  At commit every object the session
  knows has a type or can be reached, the objects that get their turn have keys of
  their type's kind, and the ids drawn for new ones clash with no key among them;
  among these are objects first met while another one is written.  A statement
  finds rows by id, and by revision where a type has revisions; inserts replace.
* Calendar: the leap test is applied to `tm_year` itself, as the code does, so the
  years of this calendar are those that the code counts in.
* Option parser: argv has no lone dash, after which the code reads beyond the end of
  the item, and for the reading results no item of two dashes alone, at which reading
  ends.
* Threads: one joiner, a class that is not NULL, no spurious wakeups.

## Model

| member | source | states |
|---|---|---|
| `TreeShape.RotateLeftContents` | tree.c:101-139 | a left rotation keeps the sequence of items and of nodes in order, of any tree |
| `TreeShape.RotateRightContents` | tree.c:140-178 | the mirror image for a right rotation |
| `TreeShape.RotateLeftExact` | tree.c:101-139 | for subtrees of any heights, the balances a left rotation computes are exact height differences again |
| `TreeShape.RotateRightExact` | tree.c:140-178 | the same for a right rotation |
| `TreeShape.RebalanceContents` | tree.c:179-194 | rebalancing, single or double, changes neither items nor nodes |
| `TreeShape.RebalanceExact` | tree.c:179-194 | rebalancing keeps every stored balance exact |
| `TreeShape.RebalanceRestores` | tree.c:179-194 | a node at plus or minus two with AVL children becomes an AVL subtree, one lower unless the taller child was level |
| `TreeHeap.RotateNodeLeft` | tree.c:101-139 | the pointer code does to the heap exactly what the store function for a left turn says |
| `TreeHeap.RotateNodeRight` | tree.c:140-178 | the same for a right turn |
| `TreeHeap.TurnLeftRep` | tree.c:101-139 | after it the heap holds the rotated tree with every thread leading to the in-order neighbour |
| `TreeHeap.TurnRightRep` | tree.c:140-178 | the same for a right turn |
| `TreeHeap.RebalanceNode` | tree.c:179-194 | the two-step rebalancing of the heap |
| `TreeHeap.RebalanceRep` | tree.c:179-194 | the heap holds the rebalanced tree, threads included |
| `TreeHeap.NextNode` | tree.c:90-99 | over threads and child pointers, finds the leftmost node of the right subtree or the node the right thread names, looking at exactly the node and the left spine of its right subtree |
| `TreeHeap.PreviousNode` | tree.c:79-88 | the mirror image |
| `TreeClimb.InsertClimbBalances` | tree.c:251-279 | a climb from a leaf that grew leaves a tree with exact balances that is AVL, or AVL below the root when the climb stops there |
| `TreeClimb.InsertClimbContents` | tree.c:251-279 | the climb changes no item, no node and no count |
| `TreeClimb.RemoveClimbBalances` | tree.c:425-462 | a climb from a subtree that may have shrunk leaves an AVL tree with exact balances |
| `TreeClimb.RemoveRootContents` | tree.c:341-424 | taking out a node with no, one or two children leaves all other items in order and all other nodes |
| `TreeClimb.RemoveRootBalanced` | tree.c:341-462 | and the climb over the rewritten path makes the tree AVL again |
| `TreeOrder.AvlSize` | tree.c:213-215 | an AVL tree of height h holds at least Fib(h+2)-1 items |
| `TreeOrder.RootAvlSize` | tree.c:251-279 | with both root subtrees AVL, whatever the root's balance, at least Fib(h+1) |
| `TreeOrder.TallTree` | tree.c:213-215 | so a tree deep enough for the depth test holds at least 63245985 items, or 39088169 with insertions as written |
| `TreeOrder.InsertRefines` | tree.c:196-280 | inserting into the sorted sequence is what the unordered list does |
| `TreeOrder.RemoveRefines` | tree.c:330-463 | so is removing |
| `TreeOrder.ReplaceRefines` | tree.c:587-599 | so is replacing an item by an equivalent one |
| `TreeOrder.RunAnswers` | tree.c:575-631 | a run on the list goes through one list per step, and each step answers by whether an equivalent item is there: which one, what is added, replaced or taken out |
| `TreeClass.Tree.FindPlace` | tree.c:205-233 | the search descends to the node that is hit or below which the item belongs, recording the path, and aborts only in a tree of height 37 |
| `TreePath.SearchFinds` | tree.c:209-253 | the search from the root ends at an equivalent item, or at a node with an empty slot on the item's side that lies between its neighbours in the order |
| `TreeClass.Tree.PlaceNode` | tree.c:196-280 | an absent item is added once, between its neighbours, a present one changes nothing; the tree becomes the one with the new leaf at the end of the search path and the balances carried up; search order, threads and exact balances stay |
| `TreeClass.Tree.PlaceBelow` | tree.c:223-279 | the part that attaches the leaf and climbs |
| `TreeClass.Tree.ClimbInsert` | tree.c:251-279 | the loop over the cursor path does to the heap what the pure climb does to the tree |
| `TreeClass.Tree.ClimbRemove` | tree.c:425-462 | the same for the climb after a removal, also up to a root that is out of balance |
| `TreeClass.Tree.TakeOut` | tree.c:341-424 | unlinking a leaf or one-child node, or splicing the successor into the place of a two-child node, with the path kept leading to where the climb starts |
| `TreeClass.Tree.RemoveNode` | tree.c:330-463 | from AVL trees and from the trees of the insertion as written, the sequence loses exactly that item and the heap that node; threads hold again, balances are exact, an AVL tree stays one; both subtrees of a root that was out of balance are AVL trees again if and only if the removal does not spoil the tree, else a child of the root is out of balance |
| `TreeClass.Tree.LookupNode` | tree.c:282-328 | a hit is the equivalent item with the cursor path leading to it, a miss means the item belongs between neighbours |
| `TreeClass.Tree.TreeInsert` | tree.c:601-607 | returns 0 and leaves the list alone if an item of it is equivalent, and otherwise 1 with the item added; as written an AVL tree stays one exactly when level nodes do not lead from the end of the search path up to a root that leans to that side |
| `TreeClass.Tree.TreeInsertRef` | tree.c:609-619 | if an item of the list is equivalent, returns it with a cursor that leads to it and leaves the list alone; otherwise NULL with the item added, after which the cursor leads to nothing in particular; as written the tree stays AVL exactly when the search path did not topple it |
| `TreeClass.Tree.TreeReplace` | tree.c:587-599 | if an item of the list is equivalent, it is returned and the new one takes its position; otherwise NULL with the item added |
| `TreeClass.Tree.TreeRemove` | tree.c:575-585 | if an item of the list is equivalent, it is returned and its position is taken out of the list, otherwise NULL; as written the tree is one of the same kind again exactly unless the path to the item says before the call that it is spoiled |
| `TreeClass.Tree.TreeLookup` | tree.c:621-625 | an item of the list that is equivalent, or NULL if there is none, in every search tree with exact balances |
| `TreeClass.Tree.LookupRef` | tree.c:627-631 | the same, with a cursor on it |
| `TreeClass.Tree.CursorRemove` | tree.c:713-720 | removes what the cursor is on and returns it, with the same condition |
| `TreeClass.Tree.TreeSize` | tree.c:541-545 | the length of the list |
| `TreeRuns.Run` | tree.c:575-631 | any run of insert, insertref, replace, remove, lookup and lookup-then-cursorremove returns what the unordered list returns and ends standing for it |
| `TreeRuns.RunAsWritten` | tree.c:575-631 | runs of the same operations with the insertion loop as written return what the list returns and keep all balances exact and both subtrees of the root AVL, up to the first removal that spoils the tree, its result included; which removals do is exactly `TreeRuns.Harms`; an AVL tree stays one until an insertion topples it; no abort below 39088169 items |
| `TreeRuns.NeverOff` | tree.c:575-631 | as long as no insertion topples the tree, every shape of the run is an AVL tree |
| `TreeRuns.RemovalCanSpoil` | tree.c:575-607 | inserting seven items in the order 2, 1, 5, 3, 6, 4, 7 into an empty tree and removing the first in order spoils the tree |
| `TreeRuns.ThreeAscending` | tree.c:601-607 | three insertions of ascending items into an empty tree leave a root balance of two |
| `TreeRuns.LiteralHeight` | tree.c:251-279 | for every size below the Fibonacci bound that keeps an AVL tree to height h, the trees of the insertion as written have height h + 1 at most |
| `TreeSpoil.RootRestored` | tree.c:434-447 | rebalancing a root over AVL subtrees, whatever its balance, keeps all balances exact and makes it no higher; both its new subtrees are AVL trees if and only if it was at most one off, or two over a level child, three over a leaning one, or four over one that leans in and whose inner child leans out |
| `TreeSpoil.ShrunkAsWritten` | tree.c:434-459 | the climb of a removal in such a tree keeps balances exact and the height from growing; the tree is spoiled if and only if it reaches the root over nodes that are level or become so, and the root is further off than that |
| `TreeSpoil.RemoveAsWritten` | tree.c:330-463 | so for every node of such a tree, with the condition read off the balances along the path before the call |
| `TreeSpoil.NeverSpoilsAvl` | tree.c:330-463 | an AVL tree is never spoiled |
| `TreeLiteral.LiteralInsertion` | tree.c:255-279 | the loop as written leaves an AVL tree if and only if the path above the new leaf is not level all the way to a root that leans to its side |
| `TreeLiteral.ClimbsAgree` | tree.c:255-279 | carrying the climb to the root differs from it only by one rebalancing of the root |
| `TreeLiteral.PlacedAsWritten` | tree.c:196-280 | from an AVL tree, the insertion as written and the one carried to the root make the same tree if and only if the search path does not topple it; otherwise they differ by rebalancing the root |
| `TreeWalk.ThreadsAreNeighbours` | tree.c:50-51 | in every linked tree a right thread names the next node in order and a left thread the previous one, NULL at the ends |
| `TreeWalk.ForEach` | tree.c:547-559 | the visitor is given every item once, in ascending order, up to its first non-zero result |
| `TreeWalk.VisitCalls` | tree.c:547-559 | the calls one by one: the first with the caller's data, each further one with what the one before it left, the last the first that is not zero |
| `TreeWalk.InOrderVisit` | tree.c:481-495 | the recursive traversal gives the visitor the same items with the same result |
| `TreeWalk.FirstNode` | tree.c:67-77 | the first node in order, looking at exactly the left spine |
| `TreeWalk.Destroy` | tree.c:525-539 | round by round looks at the node and what leads to the next, then frees the node: every node is freed exactly once, in order, and no freed node is looked at or freed |
| `TreeWalk.InOrderDistinct` | tree.c:525-539 | so no node is freed twice |
| `ObjectOrder.SamePlaceSameKey` | dbsimplebase.c:54-73 | two objects compare equal exactly if type and key are equal |
| `ObjectOrder.ComesEarlier` | dbsimplebase.c:54-73 | a lower type comes first, then a name before an id, a lower id, and of two names the one that is shorter or has the lower character where they part |
| `ObjectOrder.ObjectMapOrder` | dbsimplebase.c:54-73 | the comparison is a total preorder, as the tree needs it |
| `Schema.ColumnsGrow` | dbsimple_sqlite3.c:326-436 | the column counter gives every field with a column one of its own |
| `Schema.LinksOfPermutation` | dbsimplebase.c:399-416 | which links the rows ask for, and how often, does not depend on the order of the rows |
| `ObjectGraph.GetCleanKeeps` | dbsimplebase.c:199-235 | fetching an object that was only known keeps the graph invariant, its backpatches included |
| `ObjectGraph.SubscribeKeeps` | dbsimplebase.c:237-245 | a link to an object without data is kept as a backpatch and loses nothing |
| `ObjectGraph.ResolveKeeps` | dbsimplebase.c:280-310 | resolving one backpatch moves it into a field or a collection and keeps the invariant |
| `ObjectGraph.NothingWaits` | dbsimplebase.c:280-310 | with no backpatch left, a field holds a target exactly if a link names it and it was fetched, and a collection holds each source as often as links name it |
| `Fetch.Session.GetObject` | dbsimplebase.c:199-235 | the map after looking up or making an object |
| `Fetch.Session.AssignReference` | dbsimplebase.c:247-258 | the field is set at once or will be; other objects' fields stay |
| `Fetch.Session.AssignBackReference` | dbsimplebase.c:260-278 | the collection grows at once or will; other objects' fields stay |
| `Fetch.Session.FetchRow` | dbsimple_sqlite3.c:325-437 | over any mix of field kinds the counter stays at the field's column; the object has its key, scalars and revision, and exactly the row's links are added |
| `Fetch.Session.ResolveBackpatches` | dbsimplebase.c:280-310 | empties one object's backpatches and leaves all other lists as they are |
| `Fetch.Session.Fetch` | dbsimplebase.c:399-416 | after fetching a plan exactly its rows and singletons are objects, all backpatches are resolved, each reference is the named object if it was fetched and NULL if not, each collection is the multiset of objects that name it, and every scalar is its column; returned is the last singleton |
| `Fetch.ArrivalOrder` | dbsimplebase.c:399-416 | two fetches of the same rows, whatever the order of definitions and of the rows of each table, agree on objects, references and scalars, and on collections up to their order |
| `FetchMeaning.ColumnNumber` | dbsimple_sqlite3.c:326-436 | the column of a field is the number of scalars, references and back references to types that are no singletons before it; the key is the first column |
| `FetchMeaning.RowLinkIs` | dbsimple_sqlite3.c:367-428 | a row asks for a link for each reference field whose column names an object of the field's type, and for each back reference that does or that leads to the type of a singleton, and for no other |
| `FetchMeaning.FetchedExactly` | dbsimplebase.c:399-416 | there is an object for each singleton of the plan and for each row of its tables, and no other |
| `FetchMeaning.ScalarIs` | dbsimple_sqlite3.c:332-366 | a fetched object is clean, has the revision of the second column and the scalars of its row |
| `FetchMeaning.ReferenceIs` | dbsimple_sqlite3.c:367-397 | a fetched reference field is what its column names, if that was fetched, and NULL otherwise |
| `FetchMeaning.CollectionIs` | dbsimple_sqlite3.c:398-428 | a collection of a fetched object holds a row's object as often as the row has a back reference with the offset of the collection whose column holds the key of the collection's object, or which leads to the type of a singleton |
| `FetchMeaning.OnlyRows` | dbsimplebase.c:260-310 | a collection holds nothing but objects of rows |
| `Reach.ClosedIsReachable` | dbsimplebase.c:132-197 | a set of reachable objects that holds the roots and is closed under references is everything reachable |
| `Reach.ReachableFollows` | dbsimplebase.c:157-195 | what a reachable block refers to in a REFERENCE field, or lists in a MASTERREFERENCES field, can be reached |
| `Reach.ReachableLeast` | dbsimplebase.c:157-195 | every set that holds the roots and all that its blocks refer to or list holds what can be reached |
| `Traverse.MarkChain` | dbsimplebase.c:141-155 | marking puts a dirty object at the front of the chain, which still ends in a self-loop and lists each such object once, and makes a clean one point to itself |
| `Commit.Session.CommitTraverse` | dbsimplebase.c:132-197 | ends on every graph, cycles included; marks the object and all it leads to, creating new objects for unknown pointers, without disturbing marks or chain |
| `Commit.Session.MarkAll` | dbsimple_sqlite3.c:606-612 | run from all singletons, `next` is set on exactly the objects reachable through REFERENCE and MASTERREFERENCES: on the roots, and with a marked block on what its fields point to and on every member of its lists; the chain lists each reached new, modified or removed one exactly once |
| `Commit.Session.Dirty` | dbsimplebase.c:374-397 | the records after an object is reported as changed |
| `Commit.Session.MarkRemoved` | dbsimplebase.c:361-372 | a known object is to be removed, nothing else changes |
| `Commit.Session.BindStatement` | dbsimple_sqlite3.c:456-556 | the columns bound for an insert, with 0 for references to objects not in the index, which it puts there as new ones; key and revision for a delete, the index unchanged |
| `Commit.Session.PersistObject` | dbsimple_sqlite3.c:558-596 | one object has its turn: its row is written or gone, other rows stay, a removed object leaves the index and unknown reference targets enter it; stops exactly for a removal that finds no row |
| `Commit.Session.CommitObject` | dbsimplebase.c:312-339 | the same, with unreachable objects turned into removals by their type's flags |
| `Commit.Session.Commit` | dbsimplebase.c:341-350 | the objects have their turns by address, those first met on the way included; complete if and only if every object to be removed has its row, otherwise exactly the objects before the first such one are written back |
| `Commit.Session.CommitData` | dbsimple_sqlite3.c:598-613 | the whole commit in terms of the session, the memory and the store at its start: every object that comes has its row written or removed, no other row changes; complete if and only if each object to be removed has its row, in the revision that is known |
| `Persist.CompleteCommit` | dbsimplebase.c:312-346 | after a complete commit clean reachable rows are unchanged, modified ones have the new contents and the next revision, new ones are at revision 1, removed and unreachable ones are gone as the flags say |
| `Persist.ForeignRows` | dbsimplebase.c:341-350 | a row whose key no object of the commit ends up with is unchanged |
| `Persist.ReachedIsWritten` | dbsimplebase.c:312-339 | after a complete commit every reachable object that is modified has its row under its id at the next revision, and every new one, known or not, under a drawn id at revision 1 |
| `Persist.ListedIsWritten` | dbsimplebase.c:176-195 | so has a modified object that a root refers to or lists |
| `Persist.ReportedIsWritten` | dbsimplebase.c:374-397 | so has a known reachable object that was reported as changed, in whatever state it was |
| `Persist.RevisionWritten` | dbsimple_sqlite3.c:485-503 | a written row has the new revision in its second column |
| `Persist.ReferenceWritten` | dbsimple_sqlite3.c:532-546 | a reference is written with the id its target ends up with if and only if a target at a lower address is known by then and not removed, or ends up with 0, and a target at a higher address is not new, or its drawn id is the one it had |
| `Persist.RemovedEarlier` | dbsimple_sqlite3.c:587-593 | an object that refers to one removed before it in the same commit is written with 0 for it |
| `Persist.MetWhileWriting` | dbsimple_sqlite3.c:532-546 | writing an unreachable object brings in an object the session did not know, which is written with 0 as a reference and gets a row under a drawn id |
| `Persist.ReportedOnce` | dbsimplebase.c:374-397 | an unknown object gets a drawn id exactly if it was reported once; reported again it is written under -1 |
| `Persist.CommittedIsRead` | dbsimple_sqlite3.c:307-454 | fetching a committed row finds the key, the scalars and the keys of the referenced objects again |
| `Bind.BoundAt` | dbsimple_sqlite3.c:485-553 | an insert binds a field's value in the column numbered by the bound fields before it |
| `Bind.ColumnIs` | dbsimple_sqlite3.c:456-556 | what an insert binds for a field: the key, the revision, the value in the block's memory or its zero, the id of what a reference leads to; in the column numbered by the scalars and references before it |
| `Bind.ColumnsDiffer` | dbsimple_sqlite3.c:326-436 | the counters of a fetch and of an insert differ by exactly the back references read in between |
| `Bind.WrittenIsRead` | dbsimple_sqlite3.c:332-366 | whatever columns a query adds for back references, a written row gives key, revision and scalars back |
| `Bind.WrittenReferenceIsRead` | dbsimple_sqlite3.c:367-397 | and each reference leads to the object it led to, or nowhere |
| `RoundTrip.KeptRow` | dbsimplebase.c:312-346 | after a complete commit every object that is not removed has the row that says what memory holds, if clean ones were in step |
| `RoundTrip.GraphComesBack` | dbsimple_sqlite3.c:456-619 | fetching the store of a complete commit gives the graph in memory back: every kept object under its key, clean, with its revision and scalars; each reference is what has the key its row was written with, if anything has, which is the object it refers to in memory unless that was new and had its turn later, and NULL for a removed one unless that went before and something has the id 0; no removed object; nothing else but what has a row and the singletons |
| `RoundTrip.FetchAgain` | dbsimplebase.c:399-416 | so a session that fetches from the store of a session that has committed has that graph |
| `RoundTrip.CommitUntouched` | dbsimple_sqlite3.c:598-613 | a commit after a fetch, nothing reported: complete, and the store is as before except that exactly the unreachable objects of types with automatic removal have lost their rows |
| `FetchPlan.Clone` | dbsimple.c:70-105 | every definition is copied with its fields in order, each naming the slot where the search from the end stops |
| `FetchPlan.SlotOf` | dbsimple.c:91-94 | that slot holds the definition exactly if it is listed, and is slot 0 if not |
| `FetchPlan.ClonedAlike` | dbsimple.c:80-103 | the clone is the same graph, cycles and self-references included, if and only if all definitions that fields name are listed |
| `FetchPlan.Prepare` | dbsimple_sqlite3.c:755-783 | the first set of three stays empty, then come the statements of the queries, then empty ones |
| `FetchPlan.QueryNumbers` | dbsimple_sqlite3.c:286-305 | in numbers: the statements taken to fetch, insert and delete for a slot are those of three consecutive queries, and so are its own |
| `FetchPlan.SlotGetsOwn` | dbsimple_sqlite3.c:286-305 | with three queries for each definition that has a table, whatever they are, a definition is given the statements of its own queries if and only if one singleton is before it |
| `FetchPlan.OwnStatements` | dbsimple_sqlite3.c:286-305 | all of them are given their own, for any queries, if and only if the only singleton before them is the first definition |
| `Calendar.MonthStep` | iso8601.c:63-105 | going to the next month adds the length of the month, over year ends too |
| `Calendar.CarryYears` | iso8601.c:50-62 | moving whole years between month and year keeps the day |
| `Calendar.CanonicalUnique` | iso8601.c:44-146 | two normal times at the same second are equal |
| `Calendar.DayNumber` | iso8601.c:63-105 | the day number of the first of any month, in closed form over years that begin in March |
| `Calendar.Cycle` | iso8601.c:63-105 | four hundred years are 146097 days |
| `Calendar.NormalTimes` | iso8601.c:44-146 | which times are normal, with the months of 31 and 30 days and the leap test written out |
| `Normalize.FixDay` | iso8601.c:63-105 | carrying days over one month keeps the day count, changes nothing exactly for a day inside the month, and else comes nearer to the range |
| `Normalize.NormalizePeriod` | iso8601.c:44-146 | ends for every input with every field in the range that its month and year allow, at the same second, or one day later when the day was negative; exactly the normal times are left as they are |
| `Normalize.TargetIsSeconds` | iso8601.c:47-48 | the second is kept if and only if the day is not negative |
| `Normalize.AddPeriod` | iso8601.c:338-349 | the fields are added to the normal time and the sum is normalised; a period of days, hours, minutes and seconds moves the time by exactly its length |
| `Normalize.AddTwice` | iso8601.c:338-349 | adding two such periods one after the other is adding their sum |
| `Period.Designator` | iso8601.c:160-288 | what one unit or designator does |
| `Period.ParsePeriod` | iso8601.c:148-294 | the loop over the characters is the automaton, errors included |
| `Period.ReadsBack` | iso8601.c:148-294 | a period in the order of section 5.5.2 of ISO 8601-1:2019 is accepted if and only if it does not have both months and days, and then the numbers written are stored, M before T as months and after it as minutes |
| `Period.ReadsBackAnyCase` | iso8601.c:160 | so with any of its letters in lower case |
| `Period.CaseDoesNotMatter` | iso8601.c:160 | texts that differ only in case are read alike, from every state of the loop |
| `Period.AcceptedExactly` | iso8601.c:148-294 | a text is accepted if and only if each character that is no digit may come after the last such one before it, and a unit has a digit before it |
| `Getopt.ReadMerges` | longgetopt.c:171-197 | options with their arguments and operands are each in their original order, and when operands are passed over none of them is an option |
| `LongGetopt.Context.Permute` | longgetopt.c:11-23 | the item at the reading position goes to the very end of argv, the items after it move up |
| `LongGetopt.Context.MatchOption` | longgetopt.c:25-134 | result, reported option and argument, and whether the next item is consumed, for long options and letters, as `GetoptCalls` spells them out |
| `GetoptCalls.SplitText` | longgetopt.c:32-37 | every text after two dashes splits into a name and what is attached at the first "=", else the first blank, else the first ":" |
| `GetoptCalls.LongCall` | longgetopt.c:38-63 | the first option of that name is answered with its value, or 0 if it has a flag, and reported by its value; a required argument is what is attached or the next item, which is then used up, and without either, or with something attached where nothing may be, the answer is "?" |
| `GetoptCalls.UnlistedLong` | longgetopt.c:64-69 | a name of other than one letter that is not listed is answered with "?" and nothing is reported |
| `GetoptCalls.LetterCall` | longgetopt.c:70-133 | a letter is looked for among the letters, also the one after two dashes: unlisted it is answered with "?"; listed without an argument with itself, or "?" if "=" or a blank follows |
| `GetoptCalls.LetterArgument` | longgetopt.c:74-109 | a letter listed with an argument is answered with itself and the rest of the item without a separator, or the next item, or nothing if it may be left out; otherwise with "?" |
| `GetoptCalls.OperandCall` | longgetopt.c:171-177 | an operand that comes first is passed over, or ends the reading |
| `LongGetopt.Context.SkipOperands` | longgetopt.c:171-181 | the operands that come next are moved behind those moved before, in order |
| `LongGetopt.Context.GetOption` | longgetopt.c:161-197 | every call permutes argv; it returns what comes next in the reading of the items and leaves the rest ahead, or ends with nothing but operands left; at two dashes alone it ends with all operands that follow but the last behind those passed over before |
| `LongGetopt.ParseAll` | longgetopt.c:136-198 | a run of calls ends, its results are one by one those of reading the items once from left to right, and argv ends as the options with their arguments followed by the operands |
| `LongGetopt.MergePermutes` | longgetopt.c:161-197 | which is a permutation of the items |
| `LongGetopt.OperandOrder` | longgetopt.c:183-188 | two dashes alone leave the operands in their order if and only if nothing follows them or all operands are the same: the loop leaves one unmoved |
| `Barrier.BarrierIsSafe` | janitor.c:794-810 | nobody returns before all have arrived, only those can return, exactly one with the serial value, and it has tripped exactly then |
| `Barrier.EveryRunIsSafe` | janitor.c:745-810 | so in every run of arrivals and wakeups |
| `Barrier.Released` | janitor.c:800-808 | once tripped, exactly the first arrivals have returned or can |
| `Barrier.PthreadBarrier.Create` | janitor.c:752-774 | refuses a count of 0 and attributes, and otherwise makes a barrier nobody has entered |
| `Barrier.PthreadBarrier.Enter` | janitor.c:798-806 | one arrival, up to the return or the release of the mutex |
| `Barrier.PthreadBarrier.Leave` | janitor.c:806-808 | a waiter the broadcast has reached returns |
| `Barrier.PthreadBarrier.Destroy` | janitor.c:776-792 | refused exactly until all have arrived |
| `Rings.InsertFront` | janitor.c:269-277 | the ring has the thread in front and is well-formed in both directions |
| `Rings.Remove` | janitor.c:203-213 | the ring without the thread, well-formed, with the right head, the thread unlinked |
| `Threads.EveryRunIsSafe` | janitor.c:196-441 | in every interleaving no thread is in both lists or twice in one, none is disposed of twice, and none begins before it was registered |
| `Threads.StepKeeps` | janitor.c:196-441 | one step of any thread keeps what lists, phases, start flags, barriers and history have to do with each other |
| `Threads.BegunListed` | janitor.c:316-329 | a run function begins only while its thread is started and in the thread list |
| `Threads.OneStarter` | janitor.c:364-377 | at most one starter is on its way to a start barrier, and later starts change nothing |
| `Threads.FirstStarts` | janitor.c:364-377 | who starts a thread first is on its way to the barrier and can enter it |
| `Threads.BothMet` | janitor.c:316-329 | when a listed thread and its starter have both entered the barrier, the thread can begin, at once or after it has been woken |
| `Threads.CanBegin` | janitor.c:302-377 | from every reachable state, whatever was done before, steps of a listed thread and of a starter lead to its beginning |
| `Threads.CanFinish` | janitor.c:196-300 | from every state a running thread's end, and the joiner's steps for a joinable one, lead to its being disposed of and in neither list |
| `Threads.NothingListed` | janitor.c:413-440 | with no thread of a class in either list, each registered one that is not disposed of is between leaving one list and entering the other |
| `Registry.Janitor.Create` | janitor.c:341-348 | a new thread with its barrier for two |
| `Registry.Janitor.Register` | janitor.c:264-279 | the thread list gains it, both rings well-formed |
| `Registry.Janitor.Unregister` | janitor.c:196-236 | the thread list loses it, both rings well-formed, and its start barrier can be destroyed |
| `Registry.Janitor.Finished` | janitor.c:281-300 | joinable threads enter the finished list, detached ones are freed |
| `Registry.Janitor.Dispose` | janitor.c:238-262 | what the joiner found is still in the finished list and leaves it |
| `Registry.Janitor.Start` | janitor.c:364-377 | the first starter, and only it, is told so |
| `Registry.Janitor.OutsideLock` | janitor.c:316-329 | the meeting at the start barrier and the begin of the run function leave both rings alone |
| `Registry.Janitor.FindFinished` | janitor.c:396-407 | a finished thread of the class, if there is one, and only then |
| `Registry.Janitor.AnyLeft` | janitor.c:413-440 | 0 exactly when no thread of the class is in either list |
| `Registry.RunSchedule` | janitor.c:196-441 | any schedule of threads' steps carried out on the lists: both rings stay well-formed and hold what the interleaving says, the joiner taking the first finished thread of the class it asks for |

## Left out

- Neighbour and left/right cursor lookups of the tree: sibling indices are taken after the depth is advanced (tree.c:305-316) and `*left` is written for `*right` (tree.c:700-707).
- TreeRuns.RunAsWritten: what operations do to a tree that a removal has spoiled, a node below the root being out of balance by two or more; the height tests of the climbs no longer fit there.
- Pre- and postorder traversal, tree_refreplace, tree_lookupfirst and cursor stepping: they would only add easy members.
- malloc failure, the 8-bit width of stored balances and the unsigned width of the count.
- periodstring and intrvl_concat: the loop that removes zeros copies in the wrong direction (iso8601.c:324), so nothing is read back.
- localtime and mktime around intrvl_add, and its going on after a parse error; intrvl_verify.
- The full duration grammar of ISO 8601: days after months are rejected by the code (iso8601.c:237-243), as `Period.ReadsBack` says, and repeating intervals are not parsed.
- The write through an option's flag pointer: the result 0 is modelled, the caller's variable is not.
- Threads.EveryRunIsSafe: joining is not a completion guarantee, because a thread is in neither list between janitor.c:332 and janitor.c:333.
- Barrier.PthreadBarrier.Destroy: it frees a tripped barrier without waiting for sleepers to return, as the code does; no claim is made about them afterwards.
- Signals, backtraces, stack sizes and names of thread classes; pthread_join itself is the joiner's step from finding a thread to disposing of it.
- dbsimple_fetchplan for a connection of another module, which does nothing.
- SQL text, SQLite result codes, busy retries, transactions, prepared-statement errors and dbsimple_sync.
- dbsimple_mysql.c and style -1 of bindstatement, which belongs to it.
- RoundTrip.GraphComesBack: collections are not compared, since the columns of back references come from the SQL of the queries and not from an insert.
- RoundTrip.FetchAgain: an object with a NULL string has a row that the fetch refuses, because it asserts a text column (dbsimple_sqlite3.c:357); stores with such rows are not read.
- Commit.Session.BindStatement: the search for a target that passes the record of an object removed before, whose address is NULL by then. With 20 at the root of the pointer map, 10 and 30 below it and 20 removed, writing 30 misses 10, binds 0 and makes a second record for 10.
- Persist.ReferenceWritten: the same search; the statement is about the index.
- Commit.Session.Commit: an object first met through a reference to it. When a singleton is made, a row A names B and B's row follows, B has two nodes in the pointer map and two turns: removed, its second delete finds no row and the commit stops there.
- Commit.Session.CommitData: the same second turn.
- Persist.CompleteCommit: the same second turn; reported as changed, such an object is written with its revision raised by two.
- Commit.Session.CommitTraverse: objects without data (OBJUNKNOWN, OBJNULL) are not in the index, so the early return for them is not modelled.
- The in-place change of C structs by several session functions: records and data blocks are values in maps that the methods reassign, so aliasing between blocks is modelled by keys and addresses.
- Logging, settings, modules, daemonising, executors and command line helpers: mostly calls into other libraries.
