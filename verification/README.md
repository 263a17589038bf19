# A verified model of Escort's core

This project models the parts of the Escort browser in which state changes in the most intricate ways, and
proves what they keep. All of it is Dafny 4.11; `dafny verify dfyconfig.toml` checks everything.

| Files | What they model | Main results |
| --- | --- | --- |
| `Forests`, `TreeEdits`, `EditMeaning`, `DomLabels`, `DomTree`, `Pruning`, `DomDelete` | the linked DOM nodes, their public mutators, and their deletion | every run of `insertBefore`, `replaceChild`, `removeChild` and `appendChild` keeps the links well formed, has the exact effect on the child lists, changes nothing when it throws, keeps each node's count at its external handles plus one for a parent, and never makes a child foreign to its parent; with handles taken and given up in between, and nodes deleting themselves with their last reference, no handle is left to a deleted node and no node is left without a handle on it or above it |
| `ForestOrder`, `DomWalk` | `getNextElement`, `compareDocumentPosition` | the pointer walks are the preorder; the walk from element to element is the preorder of the elements exactly when no non-element holds an element; swapping the arguments of a comparison swaps the answer |
| `EqualTrees`, `TreeMeaning`, `DomClone` | `isEqualNode`, `cloneNode` | what a comparison tells apart is said field by field; cloning makes a fresh, well-linked copy and changes nothing; when a deep clone is refused, when original and clone compare equal, and when equality goes both ways are each characterised exactly |
| `Json`, `JsonText`, `JsonForms`, `JsonInput` | picojson's serializer and parser | the texts that the parser takes are characterised exactly, with what each stands for, by a grammar of their own; printing and parsing again is the identity on number-free values and uses up exactly the printed text; the parser terminates on every input and never pushes back twice |
| `InputStream`, `TextNormal` | `U16InputStream` | however bytes and text are cut into chunks, what is read is the normal form of the whole text, and what that is |
| `Harness` | the parallel test runner | for every order in which children end, and however they end, the report is in launch order, each test with the status its own child ended with, and the exit status is right |
| `BackgroundTask`, `BackgroundTurns` | the layout worker and its mailbox | five properties of every interleaving of the two threads, what each turn of the worker does for its command, and what it means that the worker is idle |
| `Events`, `EventOrder` | listener lists and event dispatch | visits go down to the target and up again, as the tree has them; the log of a dispatch is that of the route up to the first halt; lists never hold an entry twice, and no entry runs twice at one target in one phase, whatever the listeners do |
| `TokenList`, `TokenMeaning` | `DOMTokenList` | which tokens are there after each operation; the attribute stays in step with the live list over every run |
| `Reflect`, `MessengerMeta`, `Esidl`, `EsidlMeaning` | the metadata string, its reader, the generator of its letters, and the two generators that must agree about its places | reading recovers what was encoded; the counts are right for what is generated; every baked-in offset is where the metadata is |
| `Modifiers`, `KeyMerge`, `Keyboard` | the comparison of two keyboard reports, modifiers and keys, and the driver that makes them | balance for all reports, the exact condition for exactness, exactness for every run of the driver, the timing of auto-repeat |

`Sequences` holds the shared vocabulary.

How the models are made. A source class becomes a class with the source's fields; its methods are proved against
functions over values (a forest as child lists and parents, the text still to come, the entries of a report), and the
lemmas then say what those functions mean. What lies outside becomes a parameter or an unconstrained choice: which
child `waitpid` returns and how children end, what a listener does to an event's flags, how ICU cuts a text, what `strtod` accepts, whether
memory is there for a view.

Where the code falls short of what it is for, the code is modelled as it is, the exact condition is proved, and a
small run or value shows the failure:

- A deep clone throws WRONG_DOCUMENT_ERR exactly when the owners at and below the node differ, which in trees made by
  the mutators means that some document there has a child of its own (`DomClone.CloneNode`, `DomClone.AlikeBelow`): a
  document that has taken in one child that it owns cannot be cloned (`DomClone.DocumentRefused`).
  Where there is a clone, it is equal to its original exactly when the tree holds no comment, no document and no
  document type and attributes that share a local name agree (`EqualTrees.CloneEqual`): a comment is cloned as plain
  character data, a document and a document type as a plain node, which changes the node type
  (`EqualTrees.CommentDiffers`, `EqualTrees.DocumentDiffers`, and as a run `DomClone.CommentCompared`).
- `isEqualNode` compares from one side only. When one tree equals another, the converse holds exactly if the pair is
  reversible (`EqualTrees.EqualReversed`). Attributes never break this in trees that the program can make
  (`EqualTrees.EqualSymmetric`), but the clone of an empty document equals the clone of a comment and not conversely
  (`EqualTrees.AsymmetricPair`).
- Writing a token list out and splitting it again gives the tokens back exactly when none holds white space
  (`TokenList.RoundTrip`): adding "a b" to an empty attribute makes one token, which a fresh list reads as two
  (`TokenList.AddWithSpace`). And `remove` leaves the token in place exactly when the attribute listed it twice
  (`TokenList.RemoveLeaves`), as in "a a" (`TokenList.RemoveOfTwo`).
- With no key held the event manager repeats the padding byte 255 (`KeyMerge.EventManager.Hold`): the first time at the
  twentieth report (`KeyMerge.PaddingRepeats`).
- The event manager tells modifier keys the wrong way round: those released are told down and those pressed up, in every
  report and over every run (`KeyMerge.EventManager.KeyEvent`, `KeyMerge.EventManager.KeyEvents`), so what it tells of
  them is right exactly when none has changed (`KeyMerge.RightIffUnchanged`, and `KeyMerge.PressToldUp` as a run). It
  shows for the two keys beside the space bar, which stand for characters (cmd/eventManager.cpp:184-187).
- The metadata mark an attribute as read-only just if it is read-only and Replaceable, where every other generator takes
  one that is not Replaceable to be read-only. So the mark is right exactly for attributes that are not read-only or put
  assignments forward (`MessengerMeta.ReadOnlyTold`): a plain read-only attribute is not marked, and one that can be
  replaced is (`MessengerMeta.ReadOnlyUntold`).
- A view that is handed out was laid out since its last cascade exactly when the worker had, since then, a turn with a
  document in a window that is not a binding window (`BackgroundTask.HandedOutLaidOut`). Both ways in which it can be
  handed out without layout are witnessed (`BackgroundTask.HandOutWithoutLayout`).
- That the background task is idle does not mean that the worker rests: it rests exactly when it has decided about every
  command that it took (`BackgroundTask.IdleMeans`). Woken for another layout of a finished view, it is idle again as
  soon as that view is fetched, with the command in hand (`BackgroundTask.IdleButWoken`).

Two parts of the code rely on what feeds them, and are right for what does so in this repository:

- The interface constructor counts a static operation only when the `i` is the first special letter; the count is right
  exactly when that is so throughout (`Reflect.StaticCountExact`). The grammar gives a static operation no other
  special, so for generated metadata the count is always right (`MessengerMeta.GeneratedCount`, `MessengerMeta.Load`).
  It takes metadata from elsewhere to see it fail (`Reflect.StaticBehindOmittable`).
- The merge of keyboard reports takes both to be in one order. It sends just the keys gone up and gone down exactly
  when the reports are aligned: the keys of both stand in one order, and every other key is less than the next key of
  both (`KeyMerge.MergeRight`). Ascending order is enough (`KeyMerge.AscendingAligned`) and not needed
  (`KeyMerge.AlignedUnsorted`). The driver reports keys in ascending order, so over every run of it the events are exact
  (`Keyboard.PacketsExact`, `Keyboard.Watch`). It takes reports from elsewhere to send one key up and down again
  (`KeyMerge.OrderMatters`).

## Model

| member | source | states |
|---|---|---|
| DomTree.NodeImp.UnlinkChild | escort/src/NodeImp.cpp:29-44 | taking a child out changes exactly the links of its neighbours, its parent's ends and count, and its own |
| DomTree.NodeImp.LinkBefore | escort/src/NodeImp.cpp:46-58 | linking in front of a sibling changes exactly the links around that place |
| DomTree.NodeImp.LinkLast | escort/src/NodeImp.cpp:60-73 | linking at the end changes exactly the last link, the child's links and the count |
| DomTree.NodeImp.DetachChild | escort/src/NodeImp.cpp:29-44 | on linked nodes that stand for a forest, unlinking is taking the subtree out of its parent's list |
| DomTree.NodeImp.AttachBefore | escort/src/NodeImp.cpp:46-58 | linking a root in front of a child is inserting it at that child's position |
| DomTree.NodeImp.AttachLast | escort/src/NodeImp.cpp:60-73 | linking a root last is inserting it at the end of the child list |
| DomTree.NodeImp.IsAncestorOf | escort/src/NodeImp.h:70-76 | the loop over parents ends and answers proper ancestry |
| DomTree.NodeImp.Retain | escort/src/Object.h:141-143 | one reference more |
| DomTree.NodeImp.Release | escort/src/Object.h:144-152 | one reference less, and whether the node would now delete itself |
| DomTree.NodeImp.LeaveParent | escort/src/NodeImp.cpp:240-244 | a held node leaves its old parent, if any, which gives up its reference |
| DomTree.NodeImp.Place | escort/src/NodeImp.cpp:236-246 | retaining, leaving the old place and linking in the new one is one move of the forest and keeps every count |
| DomTree.NodeImp.AppendChild | escort/src/NodeImp.cpp:304-329 | the answer or exception, the new forest, every count kept, nothing changed by a throwing call |
| DomTree.NodeImp.InsertBefore | escort/src/NodeImp.cpp:224-255 | the same for insertion, with all its branches: null, same node, wrong document, not a child, cycle |
| DomTree.NodeImp.ReplaceChild | escort/src/NodeImp.cpp:257-283 | the same for replacement |
| DomTree.NodeImp.DropChild | escort/src/NodeImp.cpp:298-299 | unlinking a child and giving up the parent's reference to it |
| DomTree.NodeImp.RemoveChild | escort/src/NodeImp.cpp:285-302 | the same for removal |
| DomTree.Perform | escort/src/NodeImp.cpp:224-329 | any one public mutator refines the abstract edit and keeps every count |
| DomDelete.LetGo | escort/src/Object.h:144-152 | giving a handle up keeps the counts right, and the node goes if and only if no handle and no parent is left |
| DomDelete.RemoveFirst | escort/src/NodeImp.cpp:415 | the first child leaves the list, and goes if and only if it has no handle |
| DomDelete.Delete | escort/src/NodeImp.cpp:411-416 | the destructor's loop, with the destructors it sets off, ends and takes out of the forest exactly the doomed nodes; what stays is linked as it was and counted right |
| Pruning.DoomedMeans | escort/src/NodeImp.cpp:411-416 | doomed are exactly the nodes at or below the deleted one with no held node from it down to them |
| Pruning.PruneWellFormed | escort/src/NodeImp.cpp:411-416 | what a deletion leaves is a well-formed forest |
| Pruning.PruneLosesNone | escort/src/NodeImp.cpp:411-416 | a deletion leaves no node behind that has neither a handle nor a parent |
| Pruning.ChildGoes | escort/src/NodeImp.cpp:414-415 | one turn of the loop whose child goes too is one child further |
| Pruning.ChildStays | escort/src/NodeImp.cpp:414-415 | one turn of the loop whose child is held is one child further |
| DomDelete.Act | escort/src/Object.h:141-152 | a call, a handle taken, or a handle given up, whether or not it is the last reference, keeps links and counts right |
| DomDelete.PerformAll | escort/src/NodeImp.cpp:224-416 | after any run of the mutators, with handles taken and given up in between, the links stand for the run of the abstract forest, each count is its handles plus one for a parent, no child has become foreign to its parent, and no handle or node has been lost |
| DomDelete.RunTidy | escort/src/Object.h:141-152 | over any run only nodes that are there are held, and the root above each node that is there is held |
| DomDelete.NextSettled | escort/src/NodeImp.cpp:308-310 | no call and no deletion makes a child foreign to its parent |
| TreeEdits.MoveEffect | escort/src/NodeImp.cpp:240-245 | a move takes the node from its old place, keeps the order of all others, and puts it right before the reference or at the end |
| TreeEdits.ReplaceEffect | escort/src/NodeImp.cpp:271-278 | replacing puts the new child exactly where the old one stood and leaves the old one without parent |
| EditMeaning.AppendRefused | escort/src/NodeImp.cpp:304-313 | appendChild refuses just a node of another document, and else one at or above the target, each with its error |
| EditMeaning.InsertRefused | escort/src/NodeImp.cpp:224-236 | insertBefore refuses just another document, then a reference that is no child, then a cycle |
| EditMeaning.InsertWithout | escort/src/NodeImp.cpp:224-230 | without a reference it is appendChild, and without a child nothing happens |
| EditMeaning.ReplaceRefused | escort/src/NodeImp.cpp:257-269 | replaceChild refuses just an old child that is none, then another document, then a cycle |
| EditMeaning.RemoveMeans | escort/src/NodeImp.cpp:285-302 | removeChild takes a child out of its list, changes no other list, and refuses anything else |
| EditMeaning.Returns | escort/src/NodeImp.cpp:224-329 | a call that is not refused returns the new child, or the child that leaves; one that is changes nothing |
| TreeEdits.AfterWellFormed | escort/src/NodeImp.cpp:224-329 | every edit, refused or not, leaves a well-formed forest of the same nodes |
| TreeEdits.Run | escort/src/NodeImp.cpp:224-329 | every run of edits leaves a well-formed forest of the same nodes |
| TreeEdits.AfterSettled | escort/src/NodeImp.cpp:308-310 | an edit never leaves a child whose owner is neither its parent's owner nor its parent |
| TreeEdits.RunSettled | escort/src/NodeImp.cpp:308-310 | nor does any run of edits |
| Forests.AttachWellFormed | escort/src/NodeImp.cpp:237-245 | inserting a root under a node outside its own subtree makes no cycle: the guard is what the links need |
| Forests.DetachWellFormed | escort/src/NodeImp.cpp:29-44 | taking a subtree out leaves a well-formed forest |
| Forests.AncestorsChain | escort/src/NodeImp.h:70-76 | of two ancestors of a node the deeper is below the other |
| DomWalk.GetNextElement | escort/src/ElementImp.cpp:72-88 | the next element of the walk of the root's tree, or null at its end; with a null root, or one that is neither the element nor above it, of the walk of the whole tree, where the second needs that there is one |
| DomWalk.ClimbToNext | escort/src/ElementImp.cpp:79-87 | the climb finds the first element beyond a node and ends, at the root or, with a root that is not above, at an element |
| DomWalk.ListElements | escort/src/ElementImp.cpp:72-88 | iterating within a root, or without one, lists the walk, each element once and in order, and then null |
| DomWalk.SiblingsAfter | escort/src/ElementImp.cpp:80-84 | the inner loop finds the first element among the following siblings, or comes to rest at the last |
| ForestOrder.RestStep | escort/src/ElementImp.cpp:72-88 | what an element leaves of the walk starts with its successor and goes on with what that leaves |
| ForestOrder.RestToTheEnd | escort/src/ElementImp.cpp:79-87 | without a root, what precedes a node, the node, and what it leaves are the walk of its whole tree |
| ForestOrder.WalkIsElementOrder | escort/src/ElementImp.cpp:72-88 | the walk is the preorder of the elements if and only if no non-element hides one |
| ForestOrder.PreorderIsSubtree | escort/src/ElementImp.cpp:72-88 | the preorder lists exactly the descendants |
| ForestOrder.WalkNoDup | escort/src/ElementImp.cpp:72-88 | no element is met twice |
| DomWalk.Root | escort/src/NodeImp.cpp:161-168 | the climb to the root finds it and counts the depth |
| DomWalk.Climb | escort/src/NodeImp.cpp:174-179 | climbing the difference of the depths reaches the ancestor at the other's depth |
| DomWalk.CompareDocumentPosition | escort/src/NodeImp.cpp:150-204 | for any two nodes the bits agree with ancestry and preorder, all loops end and the three assertions hold |
| DomWalk.CompareCousins | escort/src/NodeImp.cpp:190-203 | for nodes in different branches the sibling tests and the scan decide by preorder |
| DomWalk.CompareSiblings | escort/src/NodeImp.cpp:195-203 | of two siblings the tests of their ends and the scan to the left tell which comes first |
| DomWalk.ComparisonMirrors | escort/src/NodeImp.cpp:150-204 | swapping the arguments swaps the answer; 0 is for a node and itself, 35 and 37 for different trees; within a tree only 2, 4, 10 and 20 are possible, by order in the tree and ancestry |
| DomWalk.OrderOf | escort/src/NodeImp.cpp:195-203 | of two nodes of a tree exactly one precedes the other |
| ForestOrder.AncestorPrecedes | escort/src/NodeImp.cpp:180-189 | an ancestor precedes its descendants |
| ForestOrder.CousinPrecedes | escort/src/NodeImp.cpp:190-203 | below different children the order of the children decides |
| ForestOrder.PrecedesStrict | escort/src/NodeImp.cpp:150-204 | document order is a strict order |
| DomClone.AttributesEqual | escort/src/ElementImp.cpp:138-154 | the nested loops with flag and break compare each attribute with the first one of its local name |
| DomClone.ContentsEqual | escort/src/NodeImp.cpp:342-360 | what each kind of node compares of itself, and the node type, field by field |
| DomClone.IsEqualNode | escort/src/NodeImp.cpp:342-360 | the recursive comparison of elements, character data, documents and document types, with its identity shortcut, ends, is the comparison of nodes, and answers whether their trees have the same gist |
| DomClone.NodesEqualIsEqualTree | escort/src/NodeImp.cpp:345-346 | on steady trees the identity shortcut changes no answer |
| DomClone.CompareApart | escort/src/ElementImp.cpp:125-156 | between separate trees the shortcut never applies |
| TreeMeaning.EqualIsSameGist | escort/src/ElementImp.cpp:125-156 | where the attributes of each element of the first tree have distinct names, and it holds no clone of a document, two trees are equal if and only if they have the same node types, names with namespace and prefix, sets of attributes without prefixes, data, document type ids, and children in order |
| TreeMeaning.MatchIsSameSettings | escort/src/ElementImp.cpp:138-154 | the search for each attribute succeeds if and only if both elements have the same set of namespace, local name and value |
| TreeMeaning.CloneGist | escort/src/NodeImp.cpp:391-409 | a clone keeps names, attributes and data; comments, documents and document types lose their node type |
| DomClone.NodesEqualMeans | escort/src/NodeImp.cpp:342-360 | the same of linked nodes |
| EqualTrees.EqualReflexive | escort/src/ElementImp.cpp:125-156 | two copies of a tree are equal if and only if attributes with a common local name agree throughout |
| EqualTrees.EqualTransitive | escort/src/ElementImp.cpp:125-156 | equality of trees is transitive |
| EqualTrees.EqualSymmetric | escort/src/ElementImp.cpp:125-156 | when the first tree has no clone of a document and no two attributes of an element share namespace and local name, equality goes both ways, whatever the second tree |
| EqualTrees.EqualReversed | escort/src/NodeImp.cpp:342-360 | when one tree equals another, the converse holds if and only if the pair is reversible throughout |
| EqualTrees.MatchSymmetric | escort/src/ElementImp.cpp:138-154 | when no two attributes of the scanned side share namespace and local name, finding them all in the other list finds the others in it |
| EqualTrees.MatchReversed | escort/src/ElementImp.cpp:138-154 | after a successful search from one list in another, the search back succeeds if and only if the other is steady and has no further name |
| EqualTrees.AsymmetricPair | escort/src/CharacterDataImp.cpp:43-53 | the clone of an empty document equals the clone of any comment, and not conversely |
| EqualTrees.CloneEqual | escort/src/ElementImp.cpp:574-584 | a deep clone, where there is one, is equal to its original if and only if every node is one that cloning keeps |
| EqualTrees.CommentDiffers | escort/src/CharacterDataImp.cpp:43-53 | no comment is equal to its clone |
| EqualTrees.DocumentDiffers | escort/src/NodeImp.cpp:391-409 | no document is equal to what its clone would be |
| DomClone.CloneNode | escort/src/NodeImp.cpp:391-409 | a deep clone throws if and only if the owners at and below the node differ; otherwise the clone is made of fresh nodes, changes none that existed, is one well-linked tree without handles, and is the copy of the original |
| DomClone.CloneKids | escort/src/NodeImp.cpp:405-408 | the loop appends a clone of every child in order, and throws if and only if one of them is refused |
| DomClone.AlikeBelow | escort/src/NodeImp.cpp:308-310 | in trees that the mutators make, owners below a node differ if and only if a document there has a child that it owns |
| DomClone.AppendClone | escort/src/NodeImp.cpp:304-329 | appending a fresh clone is refused exactly for another owner, and otherwise hangs its whole tree under the new parent |
| DomClone.CloneAndCompare | escort/src/NodeImp.cpp:331-360 | cloning throws if and only if the owners differ; otherwise comparing the node with its deep clone answers true exactly for trees that cloning keeps |
| DomClone.DocumentRefused | escort/src/NodeImp.cpp:391-409 | a document that has taken in a child of its own is refused when it is cloned |
| DomClone.CommentCompared | escort/src/NodeImp.cpp:331-360 | comparing a comment with its deep clone answers false |
| Json.StringRoundTrip | escort/src/picojson.h:245-271 | unescaping an escaped byte string gives its bytes, whatever follows |
| Json.RoundTrip | escort/src/picojson.h:532-562 | parsing a printed number-free value gives it back and stops right behind it |
| Json.ParseOrdered | escort/src/picojson.h:495-513 | objects come out with keys in order, whatever order the text has |
| Json.PutStores | escort/src/picojson.h:507 | storing a member keeps key order, overwrites its key and leaves the others |
| Json.Normalise | escort/src/picojson.h:532-562 | printing what was parsed and parsing again gives the same value |
| JsonText.Utf8Decodes | escort/src/picojson.h:418-435 | what a code point is written as is its one UTF-8 form, as RFC 3629 decodes it |
| JsonText.StringRead | escort/src/picojson.h:439-478 | a string of bytes, one-letter escapes, escaped units in digits of either case and escaped surrogate pairs is read as what these give |
| JsonText.PieceMeans | escort/src/picojson.h:398-437 | what each of them gives: a byte, or the UTF-8 form of the scalar value |
| JsonText.StringFrom | escort/src/picojson.h:439-478 | every string that is accepted is made of such pieces |
| JsonText.EscapeRead | escort/src/picojson.h:398-437 | a string of one escape decodes to its code point |
| JsonText.LoneRefused | escort/src/picojson.h:403-417 | a surrogate is accepted only as the first of a pair |
| JsonForms.ParseIff | escort/src/picojson.h:532-562 | the parser gives a value and leaves a rest if and only if the text in front of it is a form of that value: a word, a number, a string, or a list or an object of such, with white space in front of any token |
| JsonForms.ObjectHolds | escort/src/picojson.h:495-513 | an object's members are in key order, and are those of the last entry for each key |
| JsonForms.SpacedOut | escort/src/picojson.h:347-355 | white space between the tokens of a printed value changes neither the value nor what is left |
| JsonInput.Input.GetC | escort/src/picojson.h:324-338 | the next byte of what is left, or -1 at the end |
| JsonInput.Input.UngetC | escort/src/picojson.h:339-344 | puts the last byte back, so that what was left before is left again; the source's assertion is its precondition, which every caller meets |
| JsonInput.Input.SkipWs | escort/src/picojson.h:347-355 | what is left starts behind the white space |
| JsonInput.Input.ExpectC | escort/src/picojson.h:356-363 | passes white space and one expected byte, or leaves the byte in place |
| JsonInput.Input.MatchAll | escort/src/picojson.h:364-374 | passes the common prefix with the pattern |
| JsonInput.Input.ParseQuadHex | escort/src/picojson.h:377-396 | four hexadecimal digits of either case |
| JsonInput.Input.ParseCodepoint | escort/src/picojson.h:398-437 | surrogate pairs and the UTF-8 form of a code point, as the function reads it that JsonText.CodeRead and JsonText.CodeFrom describe |
| JsonText.CodeRead | escort/src/picojson.h:398-437 | what is behind the u of an escaped unit or pair is read as its code point |
| JsonText.CodeFrom | escort/src/picojson.h:398-437 | and nothing else is accepted there |
| JsonInput.Input.ParseString | escort/src/picojson.h:439-478 | a string with its escapes, refusing control bytes |
| JsonInput.Input.ParseNumber | escort/src/picojson.h:515-530 | a run of number bytes, accepted as strtod accepts it |
| JsonInput.Input.ParseArray | escort/src/picojson.h:480-493 | items between brackets |
| JsonInput.Input.ParseObject | escort/src/picojson.h:495-513 | members between braces |
| JsonInput.Input.ParseValue | escort/src/picojson.h:532-562 | on every input the parser ends with the result of the grammar function and leaves the same rest |
| JsonInput.Input.RestOfLine | escort/src/picojson.h:577-584 | the text the error message quotes |
| JsonInput.SerializeString | escort/src/picojson.h:245-271 | appends the quoted and escaped string |
| JsonInput.Serialize | escort/src/picojson.h:273-308 | appends the printed value |
| JsonInput.ParseText | escort/src/picojson.h:571-587 | result, line, quoted text and position of a whole parse: behind the value, one further when a number had to read the byte behind it, and behind the line after an error |
| JsonInput.PrintAndParse | escort/src/picojson.h:310-314 | printing and parsing a number-free value gives it back and uses up the text |
| InputStream.StreamIsNormal | escort/src/U16InputStream.h:121-162 | reading unit by unit is dropping byte order marks, then unifying newlines, then replacing NULs, on the whole text |
| TextNormal.EachGives | escort/src/U16InputStream.h:121-153 | anywhere in a text CR LF and a lone CR give one line feed, NUL gives U+FFFD, a byte order mark nothing, and any other unit itself |
| TextNormal.NormalClean | escort/src/U16InputStream.h:132-141 | a normal text holds no CR, no NUL and no byte order mark |
| TextNormal.CleanIsNormal | escort/src/U16InputStream.h:132-141 | a text without them is normal |
| InputStream.U16InputStream.ShiftDown | escort/src/U16InputStream.cpp:183-184 | the bytes kept arrive at the front unchanged though the areas overlap |
| InputStream.U16InputStream.Compact | escort/src/U16InputStream.cpp:182-186 | the bytes the converter left are at the front, none lost |
| InputStream.U16InputStream.Refill | escort/src/U16InputStream.cpp:187-202 | fills up within the limit; no byte read means the end |
| InputStream.U16InputStream.UpdateSource | escort/src/U16InputStream.cpp:179-203 | no byte lost or repeated, never past 512, flush exactly at the end of the stream |
| InputStream.U16InputStream.ReadChunk | escort/src/U16InputStream.cpp:205-215 | what is still to come is unchanged, and there is progress |
| InputStream.U16InputStream.PeekAtHand | escort/src/U16InputStream.h:124-146 | of the units at hand those not to be seen are passed, up to the first other one |
| InputStream.U16InputStream.PeekChar | escort/src/U16InputStream.h:121-153 | the next unit to come, or the end; peeking changes nothing that is to come |
| InputStream.U16InputStream.GetChar | escort/src/U16InputStream.h:155-162 | takes the next unit of what is to come |
| InputStream.U16InputStream.ReadAll | escort/src/U16InputStream.cpp:217-224 | collects all that is to come and ends |
| InputStream.ReadText | escort/src/U16InputStream.cpp:217-224 | for every way of cutting, reading a stream is the normal form of its decoded text |
| Harness.Scheduler.constructor | escort/src/harness.cpp:411-416 | an empty ring of at least one slot |
| Harness.StatusNamesResult | escort/src/harness.cpp:367-380 | the report's word for a child's exit code is the one its result begins with, for each of the six words |
| Harness.Scheduler.Fork | escort/src/harness.cpp:310-314 | a child with a number not in use, which will end as the next fate says, or no child |
| Harness.Scheduler.File | escort/src/harness.cpp:277-285 | the status of the child that ended goes to its own slot |
| Harness.Scheduler.Reap | escort/src/harness.cpp:271-286 | waits for no more children than there are; a full ring waits for its oldest; a blocking call for all |
| Harness.Scheduler.Drain | escort/src/harness.cpp:287-298 | reports the oldest ended tests in launch order and clears their slots, never more than are outstanding |
| Harness.Scheduler.Advance | escort/src/harness.cpp:299-302 | the ring moves past the cleared slots |
| Harness.Scheduler.Reduce | escort/src/harness.cpp:268-305 | a prefix of the outstanding tests is reported, each with its own status; a full ring frees a slot; a blocking call empties the ring |
| Harness.Scheduler.Enter | escort/src/harness.cpp:382-385 | a new test takes the free slot behind the newest |
| Harness.Scheduler.Map | escort/src/harness.cpp:307-388 | with a free slot before, there is a free slot after; the child launched ends as its own fate says |
| Harness.OnTest | escort/src/harness.cpp:497-502 | launching one more test keeps the run on its script, in which that test has the next child's status |
| Harness.OnOther | escort/src/harness.cpp:463-484 | a comment waits for all outstanding tests, the header line for none; either is copied to the report behind what is there |
| Harness.ReportTold | escort/src/harness.cpp:277-298 | the results of a report are those of the first tests in order, each with its test's name and the literal word for its child's end: fatal for one that was killed |
| Harness.PlacedOther | escort/src/harness.cpp:465-484 | the header line and the comments stand in the report as they are, in their order, with no result of a later test before them, and all results of earlier ones before a comment |
| Harness.ShownMeans | escort/src/harness.cpp:291-297 | the console shows just the results that are not "?", and the count is positive just if some result is uncertain |
| Harness.RunHarness | escort/src/harness.cpp:390-515 | for all fates of the children and all orders of their ends, the k-th result names the k-th test and says fatal if its child was killed and otherwise the word of its exit code; comments and the header line stand at their places; except when generating the report is complete and no child is left; the exit status is failure exactly for a failed fork or an uncertain result |
| BackgroundTask.StepKeepsInvariant | escort/src/BackgroundTask.cpp:57-165 | each atomic step of either thread keeps the invariant |
| BackgroundTask.EveryRun | escort/src/BackgroundTask.cpp:49-165 | under every interleaving: a cascaded or layouting state has a view; layouts run on cascaded views; no view is handed out twice without a wakeUp between; a view handed out is laid out exactly if the worker had a turn for it; each sleep returns what is outstanding |
| BackgroundTask.HandedOutLaidOut | escort/src/BackgroundTask.cpp:63-119 | in every run a handed-out view was laid out since its last cascade if and only if the worker took a turn since then with a document and no binding window |
| BackgroundTask.HandOutWithoutLayout | escort/src/BackgroundTask.cpp:64-83 | a view that was never laid out can be handed out, both when the document is gone and when the window is a binding window |
| BackgroundTurns.EveryTurn | escort/src/BackgroundTask.cpp:49-120 | in every run the worker's events are its turns, and each turn is what its command, its decision and the view call for: abort, drop, make and cascade, cascade, lay out, or nothing |
| BackgroundTurns.CascadeFollows | escort/src/BackgroundTask.cpp:92-105 | a command to cascade, decided with a document that is not a binding one, is followed by a cascade, unless there is no memory for a view |
| BackgroundTurns.EveryState | escort/src/BackgroundTask.cpp:57-120 | in every run the state word tells what the worker did last, or which long operation it is in |
| BackgroundTurns.HandedOutAsTold | escort/src/BackgroundTask.cpp:67-105 | a view that is handed out was cascaded since every such turn, and made since every restart decided with a document |
| BackgroundTask.IdleMeans | escort/src/WindowImp.h:151-153 | when the worker is idle its view was handed out with no wakeUp since, nothing is outstanding, and no long operation runs; and it rests if and only if it has decided about every command taken |
| BackgroundTask.IdleButWoken | escort/src/WindowImp.h:151-153 | a run after which the worker is idle and has a layout command in hand |
| BackgroundTask.Worker.WakeUpCall | escort/src/BackgroundTask.cpp:134-140 | the step of wakeUp |
| BackgroundTask.Worker.AbortCall | escort/src/BackgroundTask.cpp:142-146 | abort is a wakeUp with the abort bit |
| BackgroundTask.Worker.RestartTask | escort/src/BackgroundTask.cpp:148-155 | the step of restart, which takes an abort back |
| BackgroundTask.Worker.GetViewCall | escort/src/BackgroundTask.cpp:157-165 | the view once, then null until the next wakeUp |
| BackgroundTask.Worker.SleepCall | escort/src/BackgroundTask.cpp:124-132 | empties the mailbox |
| BackgroundTask.Worker.DecideCall | escort/src/BackgroundTask.cpp:63-108 | the iteration up to the next long operation |
| BackgroundTask.Worker.FinishCascadeCall | escort/src/BackgroundTask.cpp:92-100 | a view made if there is none, and cascaded |
| BackgroundTask.Worker.FinishLayoutCall | escort/src/BackgroundTask.cpp:109-119 | the layout's view is there |
| BackgroundTask.Perform | escort/src/BackgroundTask.cpp:49-165 | any interleaving of calls goes through the states of the abstract run, which all satisfy the invariant |
| Events.ListsStayClean | escort/src/EventTargetImp.cpp:63-102 | over every run of additions and removals no list holds an entry twice |
| Events.AddThenRemove | escort/src/EventTargetImp.cpp:63-102 | removing what was added gives the old list |
| Events.EventTarget.AddEventListener | escort/src/EventTargetImp.cpp:63-83 | appends a new entry, keeps a known one, ignores a null listener |
| Events.EventTarget.RemoveEventListener | escort/src/EventTargetImp.cpp:85-102 | takes the first equal entry out, if there is one |
| Events.EventTarget.Invoke | escort/src/EventTargetImp.cpp:31-60 | the event's log grows by the listeners of the phase, each once and in order, until an immediate stop |
| Events.Event.Handle | escort/src/EventTargetImp.cpp:43 | a listener is run once, with the current target and phase the event has |
| Events.FiredInOrder | escort/src/EventTargetImp.cpp:37-59 | the listeners run are a prefix, in registration order, of those meant for the phase; a proper one only after an immediate stop |
| Events.FiredOnce | escort/src/EventTargetImp.cpp:37-59 | each entry runs at most once in a visit |
| Events.Event.StopPropagation | escort/src/EventImp.cpp:75-78 | sets the stop flag alone |
| Events.Event.StopImmediatePropagation | escort/src/EventImp.cpp:80-84 | sets both stop flags |
| Events.Event.PreventDefault | escort/src/EventImp.cpp:96-100 | cancels a cancelable event alone |
| Events.Event.InitEvent | escort/src/EventImp.cpp:118-134 | resets the flags outside a dispatch, only ever switching bubbling and cancelable on |
| Events.BuildPath | escort/src/EventTargetImp.cpp:122-145 | the climb over the parent links ends and gives window, root, down to the parent; no window for load events |
| Events.WholePathNoDup | escort/src/EventTargetImp.cpp:122-145 | the path holds no target twice and not the node itself, because the tree has no cycle |
| Events.VisitEach | escort/src/EventTargetImp.cpp:148-153 | one loop goes on along the route until the event is halted; flags and log are those of the visits |
| Events.Propagate | escort/src/EventTargetImp.cpp:147-169 | the visits are the route root to parent, target, and back if bubbling, cut at the first stop; flags and log are theirs |
| Events.DefaultActions | escort/src/EventTargetImp.cpp:172-187 | the default phase only if not prevented, up to the first prevention; flags and log are those of its visits |
| Events.DispatchEvent | escort/src/EventTargetImp.cpp:104-203 | for a node of the tree: the visits and default visits of a whole dispatch, the flags they leave, the log of every listener run in order, and the answer |
| EventOrder.DispatchInOrder | escort/src/EventTargetImp.cpp:147-187 | of two visits of a dispatch on a tree the earlier comes before the later: while capturing it is the window or the ancestor, while bubbling and by default the descendant |
| EventOrder.RouteMembers | escort/src/EventTargetImp.cpp:122-187 | unhalted, the event comes to the target, and in each phase to every ancestor and the window, except that a load does not come to the window |
| EventOrder.ReversedAt | escort/src/EventTargetImp.cpp:163 | going back is going through the path from its end |
| EventOrder.DispatchTold | escort/src/EventTargetImp.cpp:37-187 | each run of the log is of a listener for its phase; nothing runs behind an immediate stop, nor at another target behind a stop; the flags are those of the calls made; the default phase is entered just if no call prevented it |
| EventOrder.RunsListed | escort/src/EventTargetImp.cpp:37-56 | capture listeners run while capturing, others while bubbling, both at the target, default listeners by default |
| EventOrder.AllRun | escort/src/EventTargetImp.cpp:37-59 | without an immediate stop every listener for the phase runs at each visit |
| EventOrder.VisitsStop | escort/src/EventTargetImp.cpp:148-166 | stopPropagation halts the visits before the next target |
| Events.CutUnique | escort/src/EventTargetImp.cpp:147-187 | there is only one such cut, so the visits are determined |
| Events.RouteNoDup | escort/src/EventTargetImp.cpp:147-169 | no target is visited twice in one phase |
| Events.RunsOnce | escort/src/EventTargetImp.cpp:31-60 | visits made once, with lists that hold no entry twice, run no listener twice at one target in one phase |
| Events.DispatchRunsOnce | escort/src/EventTargetImp.cpp:147-187 | in a whole dispatch each entry runs at most once at each target in each phase |
| TokenList.RoundTrip | escort/src/DOMTokenListImp.cpp:41-42 | splitting what was joined gives the non-empty tokens back if and only if none holds white space |
| TokenList.StripMeaning | escort/src/utf.h:124-144 | stripping takes white space only, and all of it at both ends |
| TokenList.StripLeadingAndTrailingWhitespace | escort/src/utf.h:124-144 | the in-place loops compute the stripped string |
| TokenList.AppliedNoDup | escort/src/DOMTokenListImp.cpp:69-134 | no operation makes a token occur twice that did not |
| TokenList.RemoveLeaves | escort/src/DOMTokenListImp.cpp:82-94 | after a removal the token is still there if and only if it was listed twice |
| TokenMeaning.ToggleMeans | escort/src/DOMTokenListImp.cpp:96-134 | on a list that names the token at most once, toggle puts it there just if it was not, a forced toggle just if told so, and every other token keeps its place |
| TokenMeaning.AddAllMeans | escort/src/DOMTokenListImp.cpp:69-80 | what was there stays, in front and in order, and each token named is there |
| TokenMeaning.RemoveAllMeans | escort/src/DOMTokenListImp.cpp:82-94 | from a list without duplicates exactly the tokens named are left out, the others in order |
| TokenList.AppliedSpaceFree | escort/src/DOMTokenListImp.cpp:69-134 | operations on tokens without inner white space keep the list free of it |
| TokenList.StoreThenLookup | escort/src/ElementImp.cpp:211-257 | a set attribute is seen by reading it and by no other reading |
| TokenMeaning.SetThenRead | escort/src/ElementImp.cpp:211-257 | an attribute that has been set is read under just those names that differ in capitals only |
| TokenList.Element.GetAttribute | escort/src/ElementImp.cpp:211-222 | the value under the lower-case name |
| TokenList.Element.SetAttribute | escort/src/ElementImp.cpp:234-257 | the first attribute of that name gets the value, or a new one is added |
| TokenList.DOMTokenList.constructor | escort/src/DOMTokenListImp.cpp:35-43 | the tokens are the attribute's value split at white space |
| TokenList.DOMTokenList.Contains | escort/src/DOMTokenListImp.cpp:64-67 | membership |
| TokenList.DOMTokenList.ToString | escort/src/DOMTokenListImp.cpp:136-147 | the tokens joined by spaces |
| TokenList.DOMTokenList.Update | escort/src/DOMTokenListImp.cpp:45-50 | the attribute becomes the joined tokens, unless the list has no attribute |
| TokenList.DOMTokenList.AddTokens | escort/src/DOMTokenListImp.cpp:69-80 | appends each new token, stripped, in order |
| TokenList.DOMTokenList.RemoveTokens | escort/src/DOMTokenListImp.cpp:82-94 | takes the first occurrence of each token |
| TokenList.DOMTokenList.ToggleToken | escort/src/DOMTokenListImp.cpp:96-112 | adds what is missing, removes what is there, and says which |
| TokenList.DOMTokenList.ToggleForce | escort/src/DOMTokenListImp.cpp:114-134 | forces the token in or out and writes back only on a change |
| TokenList.DOMTokenList.Perform | escort/src/DOMTokenListImp.cpp:69-134 | one operation keeps the attribute in step with the live list |
| TokenList.DOMTokenList.PerformAll | escort/src/DOMTokenListImp.cpp:35-147 | after any run a fresh list has the live list's non-empty tokens in order, and no new duplicates |
| Reflect.RoundTrip | escort/src/Reflect.h:32-66 | any list of well-formed entries, encoded, can be walked, and the walk recovers every entry in order, unnamed operations and constructors included |
| Reflect.HeadIsEntry | escort/src/Reflect.h:141-149 | skipping a property of an encoded string skips just its entry |
| Reflect.SkipDigits | escort/src/Reflect.h:103-116 | the end and the unsigned value of a run of digits |
| Reflect.NoWrap | escort/src/Reflect.h:103-116 | a number below 2^32 is read without wrap-around |
| Reflect.DecValue | escort/src/Reflect.h:103-116 | reading the decimal form of a number gives the number |
| Reflect.SkipSpecials | escort/src/Reflect.h:125-132 | stops at the first digit or the end |
| Reflect.SkipName | escort/src/Reflect.h:118-123 | passes the digits and as many characters as they say |
| Reflect.SkipConstantValue | escort/src/Reflect.h:134-139 | stops behind the first space |
| Reflect.SkipProperty | escort/src/Reflect.h:141-149 | passes one whole property |
| Reflect.GetName | escort/src/Reflect.h:252-257 | the name of the entry |
| Reflect.HasSpecial | escort/src/Reflect.h:259-269 | whether a letter is among the entry's specials |
| Reflect.Walk | escort/src/Reflect.h:252-269 | going through a string meets its entries in order with their kinds, names and specials |
| Reflect.StepOver | escort/src/Reflect.h:415-424 | the constructor's fused step is the step of skipProperty and finds the name's length |
| Reflect.Interface.constructor | escort/src/Reflect.h:386-426 | the counts and the string size are those of the entry list without its first entry |
| Reflect.Interface.CountAll | escort/src/Reflect.h:394-425 | the loop ends and leaves the counts of all entries behind the first |
| Reflect.Interface.GetExtends | escort/src/Reflect.h:443-451 | the name of the second entry if it is a base, and nothing otherwise |
| Reflect.StaticCountExact | escort/src/Reflect.h:403-408 | the static count is the number of static operations if and only if each has its letter first |
| Reflect.StaticBehindOmittable | escort/src/Reflect.h:403-408 | a static operation with another letter in front is not counted as static |
| MessengerMeta.StaticIsAlone | esidl/src/parser.yy:921-931 | a declared operation has the letter of static if and only if it is declared static, and then no other |
| MessengerMeta.OperationMeans | esidl/include/messengerMeta.h:71-147 | an operation has just the letters of its qualifiers |
| MessengerMeta.ElementMeans | esidl/include/messengerMeta.h:120-210 | the letters, names and values of all other elements |
| MessengerMeta.ReadOnlyTold | esidl/include/messengerMeta.h:120-130 | the letter r tells whether an attribute can be set if and only if it is not read-only or assigning it is put forward |
| MessengerMeta.ReadOnlyUntold | esidl/include/messengerMeta.h:120-130 | a plain read-only attribute is not marked, a replaceable one is |
| MessengerMeta.EntryWellFormed | esidl/include/messengerMeta.h:71-147 | what is written for a declaration is a well-formed entry |
| MessengerMeta.GeneratedCount | esidl/include/messengerMeta.h:132-147 | for every list of declarations the constructor's static count is the number of static operations |
| MessengerMeta.MetaDataIs | esidl/include/messengerMeta.h:120-210 | the string of an interface can be walked, and is its elements in order |
| MessengerMeta.Load | escort/src/Reflect.h:386-426 | an interface made from generated metadata has the right static count |
| Reflect.BinsAreKinds | escort/src/Reflect.h:398-414 | constants and attributes are counted by kind, and the two operation counts add up to all operations |
| Reflect.NameRoomExact | escort/src/Reflect.h:416-420 | the string size is the names' length and one more for each |
| Esidl.TakenIs | esidl/include/cplusplus.h:353-376 | the parameters of a stage are all, or those before the optional one that has exactly stage many before it |
| Esidl.AdjustMethodCount | esidl/src/esidl.cpp:323-350 | there is one overload more than optional parameters, with the parameter count of each stage |
| Esidl.CPlusPlusInvoke.WriteParameters | esidl/include/cplusplus.h:353-376 | writes the parameters of the current stage and counts the optional ones met |
| Esidl.CPlusPlusInvoke.VisitInterfaceElement | esidl/include/cplusplus.h:106-121 | the stage loop makes exactly one pass more than there are optional parameters, and ends |
| Esidl.CPlusPlusInvoke.AtAttribute | esidl/include/cplusplusInvoke.h:119-184 | a getter stub, and a setter stub unless the attribute is read-only in every way |
| Esidl.CPlusPlusInvoke.AtOperation | esidl/include/cplusplusInvoke.h:186-228 | the stub of the current stage with its place and arguments |
| Esidl.CPlusPlusInvoke.AtInterface | esidl/include/cplusplusInvoke.h:89-117 | all stubs of an interface and its supplements, each with its place |
| Esidl.CPlusPlusMeta.AddSymbol | esidl/include/cplusplusMeta.h:52-57 | the first entry of a name stays |
| Esidl.CPlusPlusMeta.AddConstant | esidl/include/cplusplusMeta.h:59-62 | the first constant of a name stays |
| Esidl.CPlusPlusMeta.AtAttribute | esidl/include/cplusplusMeta.h:79-93 | getter and setter metadata written and entered |
| Esidl.CPlusPlusMeta.AtOperation | esidl/include/cplusplusMeta.h:95-116 | one metadata text for every overload |
| Esidl.CPlusPlusMeta.AtConstant | esidl/include/cplusplusMeta.h:182-187 | a constant written and entered |
| Esidl.CPlusPlusMeta.AtInterface | esidl/include/cplusplusMeta.h:118-157 | the offset is always the length of the text, and the tables are right for all that was written |
| EsidlMeaning.PiecesMean | esidl/include/cplusplusMeta.h:79-116 | what each element is written as: a getter, a setter just if the attribute can be assigned, is PutForwards or Replaceable, and one overload for each number of optional parameters left out |
| EsidlMeaning.SetterIff | esidl/include/cplusplusInvoke.h:152-184 | there is a setter stub of a name if and only if an attribute of that name can be set |
| EsidlMeaning.AttributeWritten | esidl/include/cplusplusMeta.h:79-93 | each getter and setter stub leads to its own metadata |
| EsidlMeaning.OverloadWritten | esidl/include/cplusplusMeta.h:95-116 | each overload has a stub with its arguments, whose metadata begin with N in a constructor and with F elsewhere |
| Esidl.TextAt | esidl/include/cplusplusMeta.h:79-116 | every piece stands in the text just where the ones before it end |
| Esidl.StubAt | esidl/include/cplusplusInvoke.h:119-228 | each piece's stub is the one at its rank and has the place where the piece starts |
| Esidl.Agreement | esidl/include/cplusplusInvoke.h:61-63 | every stub's place is that of its own metadata, and the symbol table leads to the first stub of each name |
| Esidl.Generate | esidl/include/cplusplusMeta.h:118-180 | both passes over any interface agree |
| KeyMerge.EventManager.Merge | cmd/eventManager.cpp:613-642 | the do-while ends, stays within the nine bytes, and computes the merge |
| KeyMerge.MergeRight | cmd/eventManager.cpp:613-642 | for all padded reports the events balance, only held keys repeat, and the keys sent up and down are old minus new and new minus old if and only if the reports are aligned |
| KeyMerge.ExactIffAligned | cmd/eventManager.cpp:615-642 | from any place in both reports, what the merge takes alone is what is not shared if and only if what is left is aligned |
| KeyMerge.AscendingAligned | cmd/eventManager.cpp:615-642 | reports in ascending order are aligned |
| KeyMerge.AlignedUnsorted | cmd/eventManager.cpp:615-642 | reports that are not in ascending order can be aligned |
| KeyMerge.OwnIsDifference | cmd/eventManager.cpp:617-630 | what is not shared is exactly the difference, in order |
| KeyMerge.SameKeyTicks | cmd/eventManager.cpp:631-641 | one report more with the same key ticks the repeat counter once |
| KeyMerge.OrderMatters | cmd/eventManager.cpp:617-630 | the same keys in another order are not aligned and are sent up and down |
| KeyMerge.WithoutPadding | cmd/eventManager.cpp:573-579 | a report without a key 255 is padded and its keys are bytes one to seven |
| KeyMerge.EventManager.constructor | cmd/eventManager.cpp:457-476 | no key and no modifier held, the counter at zero |
| KeyMerge.EventManager.TellModifiers | cmd/eventManager.cpp:585-603 | the loop over the changed bits ends and tells each of them once, the lowest first |
| KeyMerge.EventManager.CompareModifiers | cmd/eventManager.cpp:585-611 | the modifiers no longer held are told down, then those newly held up, and the new byte's modifiers are kept |
| Modifiers.LowestFirst | cmd/eventManager.cpp:586-593 | the lowest bit comes first, and clearing it leaves the others |
| Modifiers.OnIs | cmd/eventManager.cpp:586-593 | the places of the bits that are set, each once and in ascending order |
| Modifiers.Exchange | cmd/eventManager.cpp:585-595 | what the two comparisons find turns the one byte's bits into the other's |
| Modifiers.ModifiersMean | cmd/eventManager.cpp:605-611 | either key of a kind calls for its modifier, and the right one of the third kind for the fourth modifier as well |
| KeyMerge.WithModifiers | cmd/eventManager.cpp:585-642 | the modifiers told before the merge leave what it says of keys |
| KeyMerge.RightIffUnchanged | cmd/eventManager.cpp:585-603 | the modifiers pressed are told down and those released up if and only if none has changed |
| KeyMerge.PressToldUp | cmd/eventManager.cpp:585-603 | pressing one modifier key sends that it went up |
| KeyMerge.EventManager.KeyEvent | cmd/eventManager.cpp:561-651 | a report is kept with its ninth byte 255, the counter stays below 20, ticks for the same key and is set to zero by a report that shares no key, the modifiers are those of its first byte, the events are those of the modifiers and then those of the merge, and the answer says whether any went up or down |
| KeyMerge.ApartRest | cmd/eventManager.cpp:643-646 | a report that shares no key with the last one sets the counter to zero |
| KeyMerge.PressAndHold | cmd/eventManager.cpp:615-646 | a key pressed while none is held, and then held, is told once and repeated after twenty further reports, then every four |
| KeyMerge.EventManager.KeyEvents | cmd/eventManager.cpp:561-651 | over any run of reports, the keys told down and not up are those that have come to be held, and the modifiers told up and not down |
| KeyMerge.EventManager.Hold | cmd/eventManager.cpp:631-645 | holding a key repeats it after 20 reports and then every 4, and only it |
| KeyMerge.PaddingRepeats | cmd/eventManager.cpp:631-645 | with no key held twenty reports send the padding as a repeated key |
| Keyboard.KeysDownIs | os/kernel/pc/8042.cpp:732-755 | the bits found, word by word and lowest first, are the keys down below the modifiers, in ascending order |
| Keyboard.ReadKeyboard | os/kernel/pc/8042.cpp:714-757 | the driver's loops end and give the modifiers and as many of the keys down as there is room for, the lowest first |
| Keyboard.PacketIs | os/kernel/pc/8042.cpp:727-755 | whatever keys are down, the driver's report is one of ascending keys without the padding |
| Keyboard.PacketKeys | cmd/eventManager.cpp:573-579 | such a report is padded, and its keys are those that fit |
| Keyboard.PacketsExact | cmd/eventManager.cpp:613-642 | any two reports of the driver are aligned: up go exactly the keys of the first alone, down those of the second alone |
| Keyboard.Watch | cmd/eventManager.cpp:800-818 | over every run of the event loop each round sends exactly the keys no longer told up and those newly told down, and the modifiers no longer held down and those newly held up |

## Left out

The DOM tree:

- Mutation events: their listeners are taken not to change the tree; the events themselves are not modelled in the mutators.
- `setParentNode` and `setTextContent`. A document that has been deleted is still compared as owner of its nodes, as in the source; what is read through that pointer elsewhere is not modelled.
- `DomDelete.PerformAll`: a node made during a run stands in the model from the start, alone and held.
- `Document.appendChild`, document fragments and the overrides of `cloneNode` in HTML element classes.
- The widths of the count, the child count and of the depth difference: they are unbounded here.
- A node's content (names, attributes, data) does not change while the tree does.
- `DomTree.NodeImp.AppendChild`: a node passed in is one that the caller holds, as a Node argument always is.
- The order of addresses, by which nodes of different trees are compared, is a parameter.
- `DomWalk.GetNextElement`: with a root that is neither the element nor above it, and no element left in the whole tree, the source reads through a null pointer; that case is excluded, and every call in the repository is without a root.
- Owners are fixed: a document type gets its owner when a document takes it in.
- `DomClone.IsEqualNode`: processing instructions, whose own methods are stubs, have no label.

JSON:

- Numbers: `strtod` is a parameter and the round trip is over values without numbers; parsing itself covers them.
- Nesting is as deep as the text: the machine stack is not modelled.
- `JsonInput.ParseText`: after an error the line is that of the place or of the next byte, which may count as read.

The input stream:

- Encoding detection and ICU: any conversion that emits the decoded text in order, takes something from a full buffer, and delivers everything with the flushing call. The limit of the target buffer in that call is not modelled.
- A stream that is bad from the start, and conversion errors.

The test runner:

- The child's side, the interactive and report modes, log files, options and the parsing of lines.
- Process numbers in use are distinct, and a child exits with one of the seven known codes or is killed; which, is a parameter.
- When generating, the program does not wait for the last tests: `Harness.RunHarness` states completeness for the other modes only.

The background worker:

- `getView`, `deleteView` and the state word are each read and written in one step: races inside a step, and when a view is destroyed, are below this model.
- Waiting for the condition variable: sleep is a step that is possible when the mailbox is not empty.

Events and token lists:

- Listeners that change listener lists or the tree during a dispatch, and what a listener does beyond stopping or preventing. What each run of a listener does is free: it is a function of listener, target and phase, which no two runs of a dispatch have in common.
- Retargeting through templates, and dispatch on a window as the target itself.
- Exceptions from listeners.
- A token list without an element, and the event a changed attribute sends.

Metadata:

- `getValue` of a constant, and strings that are not metadata: the reader takes them as given.
- `Reflect.RoundTrip`: names shorter than 2^32 characters, which the unsigned length needs, and, as the layout needs, no digit right behind a name's length.
- `Reflect.NameRoomExact`: names shorter than 2^32 - 1 characters, each of which counts for one more.
- The copy constructor of an interface, which does not copy the static count.
- How the metadata text of each overload is made; the generators take it from the node, and it is not empty.
- The numbers in the abstract class templates, which the setters advance twice; offsets are unbounded.
- Typedefs and other elements without metadata are one kind of element here, and an interface without elements, for which nothing is generated, is not modelled.

The keyboard:

- `Keyboard.ReadKeyboard`: a buffer of a single byte, behind which the source writes one more.
- How scan codes set the driver's table, what a key event becomes (translation, the ring of events), mice, and the monitor.

Scaffolding that would only add easy members: generated stubs, start-up, drawing, profiling.
