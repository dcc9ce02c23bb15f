# A verified model of the chat server's algorithmic core

This project models, in Dafny, the parts of the WebSocket chat server that are algorithms
rather than plumbing, and proves what they promise. Each module models one C file, or the part
of it that is named in the module's first lines. `dafny verify dfyconfig.toml` checks all of it.

| module | models |
|---|---|
| `Words`, `Bytes` | 64-bit words and their wrap-around; bytes and C strings |
| `RbTree` | the red-black tree of `stu_rbtree.c`: heap nodes with parent links and one shared sentinel |
| `Timer` | the timer queue of `stu_timer.c` on top of it |
| `Queue`, `Hash` | the rings of `stu_queue.h` and the hash table of `stu_hash.c` with its two rings |
| `Channel` | which connections are in which channel, kept in hash tables of `Hash`: `stu_channel.c` |
| `Json`, `JsonText`, `JsonScope`, `JsonBytes`, `JsonItems` | reader, printer, their exact agreement, the bytes of both, and child lists of `stu_json.c` |
| `HttpHeader`, `HttpRequest` | the header line parser of `stu_http_parse.c` and the header loop of `stu_http_request.c` |
| `WebSocket` | frames: `stu_websocket_parse.c` and `stu_websocket_request.c` |
| `WebSocketFrames`, `WebSocketCuts` | what becomes of frames and messages that come in one recv, and in several |
| `Calendar`, `TimeSlots` | `stu_gmtime` and the ring of published times in `stu_time.c` |
| `Upstream` | the weighted choice of a server in `stu_upstream.c` |
| `Uri`, `Base64` | `stu_unescape_uri` of `stu_string.c`, and `stu_base64.c` |

How to read it:

* Objects that the program links in place are classes here, with the program's fields; ghost
  fields name what the links mean. In the tree each node has ghost fields for its place in the
  in-order sequence, the span of its subtree and its black height, so that every rule is local
  to a node and its children.
* Loops of the program are loops here, each proved against a function; what the program
  promises is then proved about that function by lemmas. Parsers are resumable machines with a
  step function; the lemmas about arbitrary chunks are about the machine, and the methods are
  proved to run it.
* A function that a method is proved against is pinned down by lemmas of its own, in numbers,
  bytes and fields: `HttpHeader.LineIs`, `WebSocketFrames.BytesRead`, `JsonBytes.NamesRead`,
  `Uri.DecodeIs`, `Base64.EncodeAt`, `Hash.GetIs`, `Timer.TurnIs` and others.
* Where the source's own words and its code differ, the model follows the code, and a lemma
  says exactly when the code does what is expected of it. Empty JSON containers are printed but
  not read back (`JsonScope.ParsePrintIff`). The WebSocket parser leaves masked control frames
  masked in the buffer, and masked texts too behind a frame that does not end its message
  (`WebSocket.DeliveredIff`). Each recv makes the first frame of the list current again, so it
  matters how a message in several frames arrives (`WebSocketCuts.ChunksIff` says exactly when
  it does not): in one recv only its first frame is handed on (`WebSocketCuts.FragmentsIff`),
  and masked texts behind it in that recv stay masked (`WebSocketCuts.BehindFragmentsIff`);
  in several recvs nothing is (`WebSocketCuts.SplitIsLost`); what comes later is read well
  again (`WebSocketCuts.Recovers`). A frame without payload is complete only when
  another byte has come (`WebSocketFrames.FrameBack`). HTTP headers that do not come in one piece are
  refused (`HttpRequest.WholeOrRefused`). Cancelling timers need not end (`Timer.CancelEndsIff`),
  nor the choice of a server (`Upstream.EndsIff`).
* Assumptions. All live deadlines and the current time lie in one window of less than 2^63 ms
  (`InWindow`). Timer handlers may arm their own event again, with any delay chosen per event,
  and do nothing else to the queue. Allocation succeeds and released memory is not reused
  while it is still read. The tree's root may keep a stale parent pointer, so no rule mentions
  it. In a deletion with two children the successor has no left child, so the program's test
  for one never succeeds. `strtod` and the formats for numbers that are not integers are
  parameters; for `strtod` it is assumed that it reads decimal integers in front of a delimiter
  and does not pass the NUL. The time zone's part in time strings is abstracted: a string is
  known by the second it shows, and one that was never written counts as showing second 0.

## Model

| member | source | states |
|---|---|---|
| `RbTree.Tree.constructor` | src/cn/studease/core/stu_rbtree.h:40-44 | An initialised tree is valid and empty; it uses the given node as its black sentinel. |
| `RbTree.Tree.LeftRotate` | src/cn/studease/core/stu_rbtree.c:274-296 | A left rotation keeps every link, span and the in-order sequence (the root's parent excepted) and changes exactly the links of the rotated edge. |
| `RbTree.Tree.RightRotate` | src/cn/studease/core/stu_rbtree.c:298-319 | The same for the right rotation. |
| `RbTree.Tree.InsertTimerValue` | src/cn/studease/core/stu_rbtree.c:98-124 | The descent compares truncated keys as signed differences; with all keys in a window below 2^63 the new red leaf lands behind exactly the nodes that are not later than it. |
| `RbTree.Tree.Descend` | src/cn/studease/core/stu_rbtree.c:102-117 | The descent ends between the last node not later and the first later one, and visits no more nodes than the height. |
| `RbTree.Tree.InsertFixup` | src/cn/studease/core/stu_rbtree.c:36-75 | From a tree with at most one red-red edge the loop ends, by a measure on the distance to the root, with all red-black rules restored and the sequence unchanged. |
| `RbTree.Tree.Insert` | src/cn/studease/core/stu_rbtree.c:17-76 | Insertion keeps all red-black invariants; the new sequence is the old one with the node behind all nodes not later than it (equal keys in order of arrival). |
| `RbTree.Tree.Min` | src/cn/studease/core/stu_rbtree.h:62-69 | The minimum is the first node of the subtree's span, found in at most as many steps as the subtree is high. |
| `RbTree.Tree.FindSubstitute` | src/cn/studease/core/stu_rbtree.c:132-147 | The node that gives up its place is the node itself or its in-order successor without a left child, and the child handed up is its only one. |
| `RbTree.Tree.RemoveRoot` | src/cn/studease/core/stu_rbtree.c:149-160 | Removing a root with at most one child leaves a valid tree without it. |
| `RbTree.Tree.Detach` | src/cn/studease/core/stu_rbtree.c:162-211 | The splice of either kind removes the node from links and sequence, wipes it, and leaves one black missing exactly where the fixup starts, or nothing missing when a red node gave up its place. |
| `RbTree.Tree.DeleteFixup` | src/cn/studease/core/stu_rbtree.c:213-270 | From a tree that misses one black on one side (also when that side is the shared sentinel with its overwritten parent) the loop ends with all red-black rules restored. |
| `RbTree.Tree.Delete` | src/cn/studease/core/stu_rbtree.c:126-271 | Deleting any node leaves a valid red-black tree whose sequence is the old one with exactly that node removed; the node's links and key are wiped. |
| `RbTree.Tree.HeightBound` | src/cn/studease/core/stu_rbtree.c:37-73 | Every valid tree with n nodes satisfies 2^height <= (n + 1)^2, that is, height <= 2 log2(n + 1); every reachable tree is valid. |
| `RbTree.Tree.Rules` | src/cn/studease/core/stu_rbtree.c:17-76 | What validity says of each node: its children lie before and behind it and point back, times are in order, a red node has black children, both sides have the same number of blacks, and the root is black. |
| `Words.WrappedDifference` | src/cn/studease/core/stu_rbtree.c:103-111 | Subtracting truncated keys and reading the result as signed gives the true difference if it fits in 63 bits and a sign. |
| `Timer.Timers.constructor` | src/cn/studease/core/stu_timer.c:19-25 | The timer queue starts empty with no event set. |
| `Timer.Timers.DelLocked` | src/cn/studease/core/stu_timer.c:185-197 | The event leaves the queue, all others keep their places, and the link between `timer_set` and membership is kept. |
| `Timer.Timers.AddLocked` | src/cn/studease/core/stu_timer.c:147-176 | The event stays where it is exactly if it is set and the new deadline is less than 300 ms from its key; otherwise it moves behind all entries not later than the new deadline. In every case its key stays strictly within 300 ms of the latest deadline asked for. |
| `Timer.Timers.Find` | src/cn/studease/core/stu_timer.c:27-51 | The result is the exact wait to the earliest deadline, 0 if it is past, and 2^64 - 1 if no timer is set. |
| `Timer.Timers.FireFirst` | src/cn/studease/core/stu_timer.c:75-87 | The first entry leaves the queue and its event is marked as timed out and not set. |
| `Timer.Timers.DueNode` | src/cn/studease/core/stu_timer.c:63-73 | A node is returned exactly if the earliest deadline is not after now, and it is that node. |
| `Timer.Timers.Expire` | src/cn/studease/core/stu_timer.c:53-95 | With handlers that may re-arm their own event the loop ends. The events that fire are exactly those due at entry, in deadline order, first armed first, and are marked as timed out; a fired event is in the tree afterwards exactly if its handler armed it, and then for the time it asked for; every other entry stays; all that is left is later than now. |
| `Timer.ExpireState` | src/cn/studease/core/stu_timer.c:62-73 | At each turn of the expiry loop either all due entries have fired and everything left is later than now, or the head of the queue is the next due entry of the queue at entry. |
| `Timer.DueIsPrefix` | src/cn/studease/core/stu_timer.c:68-73 | In an ordered queue the due entries are a prefix. |
| `Timer.Timers.CancelOne` | src/cn/studease/core/stu_timer.c:106-131 | One turn, for any handlers: the loop ends exactly if the queue is empty or its first event is not cancelable; otherwise that event is cancelled, and armed again behind all entries not later if its handler does so. |
| `Timer.CancelEndsIff` | src/cn/studease/core/stu_timer.c:106-131 | The loop ends if and only if each cancelable event in front of the first one that is not is not armed again, or for a time not in front of that one; then each of them is cancelled once, else the loop never ends. |
| `Timer.TurnIs` | src/cn/studease/core/stu_timer.c:114-130 | A turn in terms of the first event: nothing if it is not cancelable, else it goes, and comes back if its handler arms it. |
| `Timer.Timers.FirstCancelable` | src/cn/studease/core/stu_timer.c:107-116 | The event of the earliest timer, or null exactly if there is none or its event is not cancelable. |
| `Timer.Timers.Cancel` | src/cn/studease/core/stu_timer.c:97-137 | Where the loop ends: the entries that go are the cancelable ones in front of the first whose event is not cancelable; each is in the tree afterwards exactly if its handler armed it, for the time it asked for; the first kept entry heads the queue, and all kept ones stay. |
| `Timer.Timers.Advance` | src/cn/studease/core/stu_time.c:78-83 | When time moves on nothing in the queue changes. |
| `Queue.Init` | src/cn/studease/core/stu_queue.h:21-23 | An initialised sentinel is an empty ring. |
| `Queue.InsertTail` | src/cn/studease/core/stu_queue.h:40-44 | The ring gains the link at its end, in both directions. |
| `Queue.Remove` | src/cn/studease/core/stu_queue.h:67-71 | The ring loses exactly that link, which is reset. |
| `Queue.Bypass` | src/cn/studease/core/stu_hash.c:214-219 | Unlinking without the reset: the ring loses the link, and its `next` still leads on along the ring. |
| `Queue.RingLinks` | src/cn/studease/core/stu_queue.h:21-71 | On a ring `next` and `prev` lead back to each other. |
| `Hash.HashKey` | src/cn/studease/core/stu_hash.c:11-22 | The key is the 31-polynomial of the bytes, truncated to 64 bits. |
| `Hash.HashKeyLc` | src/cn/studease/core/stu_hash.c:24-35 | The same of the bytes in lower case. |
| `Hash.PolyIs` | src/cn/studease/core/stu_hash.c:11-35 | The polynomial: one byte is its own key, and a byte behind others adds to 31 times their key. |
| `Hash.FirstInChain` | src/cn/studease/core/stu_hash.c:162-178 | Searching one bucket finds what searching all elements in insertion order would find first. |
| `Hash.GetAfterPut` | src/cn/studease/core/stu_hash.c:76-143 | A stored value is found again (with the flag for replacement always, without it if there was none before), and other keys see no difference. |
| `Hash.GetAfterDelete` | src/cn/studease/core/stu_hash.c:194-244 | After a removal the key is not found, and other keys see no difference. |
| `Hash.GetIs` | src/cn/studease/core/stu_hash.c:156-185 | A lookup gives the earliest item with that hash, length and text, if there is one. |
| `Hash.PutIs` | src/cn/studease/core/stu_hash.c:99-130 | Storing replaces the value of the earliest match, if asked to, and otherwise adds an item at the end. |
| `Hash.DeleteAllIs` | src/cn/studease/core/stu_hash.c:208-233 | Removal goes item by item, keeps the order, and takes exactly the items with that hash, length and text. |
| `Hash.DeleteOneIs` | src/cn/studease/core/stu_channel.c:144-166 | The removal of one takes the earliest match that is picked, and nothing else. |
| `Hash.Hash.constructor` | src/cn/studease/core/stu_hash.c:37-62 | A new table is valid and empty. |
| `Hash.Hash.Rules` | src/cn/studease/core/stu_hash.c:75-143 | What validity says: the global ring holds all elements, each bucket ring exactly the elements of that bucket, and a bucket without elements is not allocated. |
| `Hash.Hash.FindLocked` | src/cn/studease/core/stu_hash.c:156-185 | The result is the value of the earliest entry with that hash, length and bytes. |
| `Hash.Hash.InsertLocked` | src/cn/studease/core/stu_hash.c:75-143 | The table's contents, an insertion-ordered multimap, gain the entry at the end or, on replacement, change the earliest match in place; every bucket ring still equals the global ring filtered to that bucket and `length` the number of entries. |
| `Hash.Hash.Sweep` | src/cn/studease/core/stu_hash.c:208-233 | Unlinking matches while walking the ring removes all matches and nothing else. |
| `Hash.Hash.RemoveLocked` | src/cn/studease/core/stu_hash.c:194-244 | The contents lose all matching entries and keep the order of the rest; an emptied bucket is given back; both kinds of ring stay consistent. |
| `Hash.Hash.ForeachLocked` | src/cn/studease/core/stu_hash.c:253-264 | The entries are visited once each, in insertion order. |
| `Hash.Hash.RemoveOne` | src/cn/studease/core/stu_channel.c:138-175 | Only the earliest matching entry whose value is picked goes; an emptied bucket is given back. |
| `Channel.SameIdIff` | src/cn/studease/core/stu_channel.c:31-35 | Two ids without a NUL name the same channel exactly if they are the same bytes, although the hash is of their lower case. |
| `Channel.Tables.Holds` | src/cn/studease/core/stu_channel.c:24-78 | The hash table of channels and those of the members are valid tables and hold exactly what the registry says. |
| `Channel.Tables.Open` | src/cn/studease/core/stu_channel.c:40-63 | A new channel with an empty hash table of its own is stored in the hash table of channels; all tables stay consistent and share no part. |
| `Channel.Tables.Seat` | src/cn/studease/core/stu_channel.c:80-86 | The hash table of that channel gains the connection, which names the channel; all other hash tables stay as they are. |
| `Channel.Tables.Unseat` | src/cn/studease/core/stu_channel.c:134-177 | The hash table of that channel loses the earliest entry of that user id with the connection's descriptor; all other tables stay as they are. |
| `Channel.Tables.Unregister` | src/cn/studease/core/stu_channel.c:114-117 | The hash table of channels loses that name; the members' tables stay as they are. |
| `Channel.Registry.FindOrAdd` | src/cn/studease/core/stu_channel.c:31-67 | The channel of that name, a new one exactly if there was none; no membership changes. |
| `Channel.Registry.InsertLocked` | src/cn/studease/core/stu_channel.c:80-92 | The connection becomes the last member of the channel and names it. |
| `Channel.Registry.Insert` | src/cn/studease/core/stu_channel.c:24-78 | A join appends the connection to the members of exactly the channels of that name and keeps the registry's invariant. |
| `Channel.Registry.RemoveUserLocked` | src/cn/studease/core/stu_channel.c:126-178 | Exactly the leaving connection goes from its channel's list, although other members may share its user id. |
| `Channel.Registry.RemoveIfEmpty` | src/cn/studease/core/stu_channel.c:108-123 | An empty channel, and no other, is unregistered. |
| `Channel.Registry.RemoveLocked` | src/cn/studease/core/stu_channel.c:101-124 | A leave removes the connection from the members of its channel, changes no other channel, and keeps the registry's invariant. |
| `Channel.Registry.RegisteredIffUsed` | src/cn/studease/core/stu_channel.c:35-67 | A channel is registered exactly while it has a member. |
| `Channel.Registry.MemberWhereItSays` | src/cn/studease/core/stu_channel.c:80-92 | A connection is listed in the channel that it names, once, and in no other. |
| `Channel.Registry.Broadcast` | src/cn/studease/core/stu_channel.c:307-317 | The message goes to the descriptors of the members, in the order in which they joined. |
| `Channel.Registry.PushUsers` | src/cn/studease/core/stu_channel.c:255-262 | As many messages are sent as connections are joined, and each of these gets one. |
| `Channel.Registry.PushStatusTotal` | src/cn/studease/core/stu_channel.c:368-393 | The reported total is the number of joined connections. |
| `Json.ParseValue` | src/cn/studease/core/stu_json.c:439-485 | The recursive state machines accept and build exactly what a descent without states does. |
| `Json.ParseString` | src/cn/studease/core/stu_json.c:525-607 | The string machine: contents up to the next quote, position behind it, unset if the input ends first. |
| `Json.ParseArray` | src/cn/studease/core/stu_json.c:646-726 | The array machine against the descent, for every input, also truncated input, which it accepts. |
| `Json.ParseMember` | src/cn/studease/core/stu_json.c:812-841 | The value of a member and what follows it, against the descent. |
| `Json.ParseObject` | src/cn/studease/core/stu_json.c:728-861 | The object machine with its seven states against the descent, for every input. |
| `JsonText.PrintValue` | src/cn/studease/core/stu_json.c:869-907 | The recursive printer writes exactly the text of the value behind what was there. |
| `JsonText.PrintArray` | src/cn/studease/core/stu_json.c:964-981 | The same for arrays. |
| `JsonText.PrintObject` | src/cn/studease/core/stu_json.c:983-1004 | The same for objects. |
| `JsonText.ValueBack` | src/cn/studease/core/stu_json.c:439-861 | However a well-scoped value is spaced, it is read back unchanged and exactly its text is consumed. |
| `JsonText.RoundTrip` | src/cn/studease/core/stu_json.c:415-437 | The same with white space in front, anywhere in the input. |
| `JsonText.ParsePrint` | src/cn/studease/core/stu_json.c:864-1013 | Reading what was printed gives the value back. |
| `JsonText.PrintInjective` | src/cn/studease/core/stu_json.c:864-1013 | Different well-scoped values have different texts. |
| `JsonText.EmptyArrayFails` | src/cn/studease/core/stu_json.c:672-706 | The text of an empty array is rejected. |
| `JsonText.DecimalReads` | src/cn/studease/core/stu_json.c:620-625 | The assumption about strtod can be met: a decimal reader meets it. |
| `JsonScope.ParsePrintIff` | src/cn/studease/core/stu_json.c:439-1013 | Printed text is read back to the same value if and only if no string or key has a quote or NUL in it and no container is empty. |
| `JsonScope.CleanValue` | src/cn/studease/core/stu_json.c:525-607 | The reader never makes a string or key with a quote in it, nor, from text without NUL, one with a NUL. |
| `JsonScope.EmptyFails` | src/cn/studease/core/stu_json.c:646-861 | Text with an empty container anywhere in it is an error. |
| `JsonBytes.NamesRead` | src/cn/studease/core/stu_json.c:487-523 | The bytes of `null`, `true` and `false` are read as these values. |
| `JsonBytes.OtherNamesFail` | src/cn/studease/core/stu_json.c:487-523 | What begins like no value and is none of these names is an error where it begins. |
| `JsonBytes.StringRead` | src/cn/studease/core/stu_json.c:525-607 | A quote, bytes other than quotes, and a quote are a string of these bytes; without the second quote it has no value. |
| `JsonBytes.NumberRead` | src/cn/studease/core/stu_json.c:609-644 | A minus sign or a digit begins a number, which is what strtod makes of it. |
| `JsonBytes.ElemRead` | src/cn/studease/core/stu_json.c:672-714 | Behind an element and white space a bracket ends the array, a comma is followed by the rest, the end of the input ends it too, and any other byte is an error there. |
| `JsonBytes.ArrayRead` | src/cn/studease/core/stu_json.c:646-726 | A bracket, two values with a comma between them and a bracket, with white space anywhere, are an array of both. |
| `JsonBytes.MemberRead` | src/cn/studease/core/stu_json.c:760-852 | A member is a key in quotes, a colon and a value, with white space anywhere; a brace, a comma, the end or an error follow. |
| `JsonBytes.BracketNeeds` | src/cn/studease/core/stu_json.c:646-861 | An opening bracket needs a value, an opening brace a quote, or the end of the input. |
| `JsonBytes.NamesPrinted` | src/cn/studease/core/stu_json.c:909-933 | What is printed for null, true, false and strings, byte by byte. |
| `JsonBytes.NumberPrinted` | src/cn/studease/core/stu_json.c:936-961 | Numbers of 32 bits that are integers, or at most DBL_EPSILON away from one, are printed in decimal, all others by the formats. |
| `JsonBytes.DecimalIs` | src/cn/studease/core/stu_json.c:943-946 | Decimal digits without leading zeros behind a minus sign. |
| `JsonBytes.ArrayPrinted` | src/cn/studease/core/stu_json.c:964-981 | Brackets around the elements of an array. |
| `JsonBytes.ArraysJoined` | src/cn/studease/core/stu_json.c:964-981 | Two arrays one behind the other are printed as one by putting a comma in place of the inner brackets. |
| `JsonBytes.ObjectPrinted` | src/cn/studease/core/stu_json.c:983-1013 | Braces around the members of an object, each a key in quotes, a colon and a value. |
| `JsonBytes.ObjectsJoined` | src/cn/studease/core/stu_json.c:983-1013 | The same joining for objects. |
| `JsonItems.AddItemToObject` | src/cn/studease/core/stu_json.c:265-283 | The child list gains the item at its end and keeps its shape: first child's `prev` at the last, `next` ending in null. |
| `JsonItems.GetArrayItemAt` | src/cn/studease/core/stu_json.c:286-299 | The child at that index, or null outside the list. |
| `JsonItems.GetObjectItemBy` | src/cn/studease/core/stu_json.c:301-320 | The first child whose key has that length and text, or null. |
| `Bytes.Strncpy` | src/cn/studease/core/stu_string.c:60-81 | The copy ends at the first NUL, and nothing but one NUL is written behind it. |
| `HttpHeader.Request.ParseHeaderLine` | src/cn/studease/core/stu_http_parse.c:233-487 | One call does exactly what the byte machine says, returns STU_OK at the end of a line, STU_DONE at that of the headers, STU_AGAIN at the end of the bytes, and stores what the next call needs. |
| `HttpHeader.RunSplit` | src/cn/studease/core/stu_http_parse.c:464-469 | Stopping anywhere and resuming there makes no difference. |
| `HttpHeader.RunPrefix` | src/cn/studease/core/stu_http_parse.c:263-263 | No byte behind the end of the buffer matters. |
| `HttpHeader.FeedIsCall` | src/cn/studease/core/stu_http_parse.c:463-486 | A line from a growing buffer, cut at arbitrary points, gives the same return code and, unless it is an error, the same slices and end; on STU_OK also the same hash and index. |
| `HttpHeader.RunTracks` | src/cn/studease/core/stu_http_parse.c:268-460 | For every accepted line the slices are in order inside the consumed bytes, and a valid name has the hash of its lower case, and its lower case in the 32-byte buffer whenever it fits. |
| `HttpHeader.LineBack` | src/cn/studease/core/stu_http_parse.c:268-478 | A sent line `Name: value` is accepted as a whole; the slices are the name and the value without the blanks around it. |
| `HttpHeader.LineIs` | src/cn/studease/core/stu_http_parse.c:268-456 | Any line of a name, a colon and a value, whatever bytes, is accepted up to its LF; the slices are the name and the value without blanks around it; the name is invalid exactly if a byte is no letter, digit, hyphen or allowed underscore, and otherwise has its hash and lower case. |
| `HttpHeader.BareLineIs` | src/cn/studease/core/stu_http_parse.c:347-359 | A line without a colon is a name without a value. |
| `HttpHeader.NameFails` | src/cn/studease/core/stu_http_parse.c:369-371 | A NUL in a name, or anything but CRs and LF behind its CR, is an error. |
| `HttpHeader.ValueFails` | src/cn/studease/core/stu_http_parse.c:376-446 | The same for a value. |
| `HttpHeader.EndIs` | src/cn/studease/core/stu_http_parse.c:272-460 | An empty line ends the headers; a CR that no LF follows is an error. |
| `HttpHeader.IgnoredIs` | src/cn/studease/core/stu_http_parse.c:361-367 | A line that begins with `HTTP/` is left out. |
| `HttpRequest.Push` | src/cn/studease/core/stu_http_request.c:385-405 | The stored header shows name and value, NUL-terminated, with the lower-case key and its hash, whichever of the two sources the key came from; only the two bytes behind the slices are written. |
| `HttpRequest.RunSame` | src/cn/studease/core/stu_http_request.c:387-393 | Parsing from a line on does not see what was written before that line. |
| `HttpRequest.ProcessHeaders` | src/cn/studease/core/stu_http_request.c:370-438 | The loop, writing into its buffer, yields the headers of the unmodified buffer, each still shown by the final buffer; each header is accepted or refused in view of those before it; bytes not consumed are unchanged. |
| `HttpRequest.FirstLineIs` | src/cn/studease/core/stu_http_request.c:370-416 | Any line that `HttpHeader.LineIs` is about and that has a valid name gives a header with that name, value, lower-case key and hash; if it is wanted, the rest is read behind it, else the request is refused. |
| `HttpRequest.OddLineIs` | src/cn/studease/core/stu_http_request.c:373-377 | A line with another byte in its name is refused with 400. |
| `HttpRequest.HeadersBack` | src/cn/studease/core/stu_http_request.c:370-427 | A block of sent headers is read back as exactly that list, with trimmed values and lower-case keys, and then done. |
| `HttpRequest.ShortIsRefused` | src/cn/studease/core/stu_http_request.c:83-92 | The parser reads on into the zeros behind what was received: headers that break off are refused, unless they do so within an ignored `HTTP/` line; nothing else changes the result. |
| `HttpRequest.WholeOrRefused` | src/cn/studease/core/stu_http_request.c:83-92 | A block of sent headers, received as far as any of its bytes, is read if it came whole and refused with 400 if it did not. |
| `WebSocket.Unmask` | src/cn/studease/core/stu_websocket_parse.c:92-94 | Masking twice with the same key is the identity (section 5.3 of RFC 6455). |
| `WebSocket.XorIs` | src/cn/studease/core/stu_websocket_parse.c:92-94 | The operation on two bytes is exclusive or: each of the eight bits is set exactly if the two bits are different. |
| `WebSocket.BigEndianValue` | src/cn/studease/core/stu_websocket_parse.c:46-69 | A length in network byte order has its value back. |
| `WebSocket.Request.HeaderByte` | src/cn/studease/core/stu_websocket_parse.c:30-82 | Each header case consumes its bytes or waits, and stores what the frame needs; a key is stored in the first frame of the list only. |
| `WebSocket.Request.ParseFrame` | src/cn/studease/core/stu_websocket_parse.c:12-143 | One call parses as the frame machine says, over any resumption, and unmasks exactly the payload in place. |
| `WebSocket.ParseMore` | src/cn/studease/core/stu_websocket_parse.c:28-30 | What was parsed does not change when more input comes, and a waiting parser resumes where it stopped. |
| `WebSocket.DeliveredIff` | src/cn/studease/core/stu_websocket_parse.c:79-108 | The parser leaves the payload as it was sent if and only if the frame is not masked, or is a text or binary frame and the first of its list, or the key bytes that are used are 0. |
| `WebSocket.SomeStayMasked` | src/cn/studease/core/stu_websocket_parse.c:79-108 | A masked ping, and a masked text behind a frame that does not end its message, stay masked: 1 is left as 254. |
| `WebSocketFrames.FrameBack` | src/cn/studease/core/stu_websocket_parse.c:83-120 | A sent frame is complete when its payload is there and one byte follows its header; a frame without payload waits for another byte. |
| `WebSocketFrames.BytesRead` | src/cn/studease/core/stu_websocket_parse.c:28-120 | What any bytes mean: final bit, opcode, all three lengths, key and payload at their places (section 5.2 of RFC 6455); of a text or binary frame that comes first each masked byte is xored with its key byte, of others none. |
| `WebSocketFrames.WireBytes` | src/cn/studease/core/stu_websocket_request.c:416-445 | The bytes of a frame as it is sent, one by one, for all three lengths. |
| `WebSocket.DeliverIsRead` | src/cn/studease/core/stu_websocket_request.c:56-62 | If the first frame of the list is current where the last chunk begins, the same frames are read and the same requests handed on as from the whole, although each recv makes the first frame current again. |
| `WebSocket.Request.Concat` | src/cn/studease/core/stu_websocket_request.c:122-143 | The text and binary frames of the list are put together in order, unless there is a close frame on it. |
| `WebSocket.Request.FrameRead` | src/cn/studease/core/stu_websocket_request.c:115-178 | One turn of the loop: a frame that ends its message hands on what the list holds, if anything, or closes; another one goes on to the next frame of the list, an old one if there is one. |
| `WebSocket.Request.ProcessRequest` | src/cn/studease/core/stu_websocket_request.c:109-187 | Whatever frames are on the list and whichever is current, the loop reads the frames in the buffer, hands on exactly the requests that go with them, closes where a message ends with a close frame on the list, and leaves the rest. |
| `WebSocket.Request.Receive` | src/cn/studease/core/stu_websocket_request.c:37-94 | One recv: the bytes are appended, the first frame of the list is made current whatever is linked behind it, and the buffer is processed from there. |
| `WebSocket.Request.Serve` | src/cn/studease/core/stu_websocket_request.c:30-94 | A connection over any number of recvs reads and hands on what the machine with its restarts says, until it closes. |
| `WebSocketFrames.FramesThen` | src/cn/studease/core/stu_websocket_request.c:109-187 | After frames that are complete and do not close, what follows is read with the list as they left it. |
| `WebSocketFrames.FramesBack` | src/cn/studease/core/stu_websocket_request.c:109-187 | Any frames in one recv, of all three length forms, masked or not, whole messages or parts, with or without close frames, on whatever list earlier ones left, are read back in order up to the close, all but a last one without payload. |
| `WebSocketCuts.ChunksIff` | src/cn/studease/core/stu_websocket_request.c:86-94 | Frames as the protocol orders them (section 5.4 of RFC 6455) come out in the same way however their bytes are cut into recvs if and only if all that are read, but the last, end their messages. |
| `WebSocketCuts.ChunksBack` | src/cn/studease/core/stu_websocket_request.c:86-94 | Such frames are read back in order for every cut. |
| `WebSocketCuts.RequestsBack` | src/cn/studease/core/stu_websocket_request.c:115-149 | Where each message is one frame, what is handed on, however the bytes arrive, are the payloads of the non-empty text and binary frames in front of the first close frame, as they were sent. |
| `WebSocketCuts.RequestsAre` | src/cn/studease/core/stu_websocket_request.c:109-149 | Where each message is one frame, the requests are the payloads at increasing indices, namely all text and binary frames with a payload in front of the first close frame, each once; the loop closes exactly if that close frame is complete. |
| `WebSocketCuts.TextsOnce` | src/cn/studease/core/stu_websocket_request.c:115-149 | If every frame is a text or binary frame with a payload, each is handed on as it was sent, once and in order. |
| `WebSocketCuts.FragmentsIff` | src/cn/studease/core/stu_websocket_request.c:122-143 | A message in several frames (section 5.4 of RFC 6455) that come in one recv is handed on whole if and only if all frames but its first are empty. |
| `WebSocketCuts.SplitIsLost` | src/cn/studease/core/stu_websocket_request.c:86-143 | Of a message in several frames whose recvs end with frames, two recvs or more, nothing is handed on. |
| `WebSocketCuts.RestIsLost` | src/cn/studease/core/stu_websocket_request.c:86-143 | Of a message sent as `a` and `b` only `a` is handed on if both come in one recv, and nothing if they come in two. |
| `WebSocketCuts.BehindFragmentsIff` | src/cn/studease/core/stu_websocket_request.c:158-175 | Behind a message in several frames, and in the same recv, a text is handed on as it was sent if and only if it is not masked or its key changes nothing. |
| `WebSocketCuts.Recovers` | src/cn/studease/core/stu_websocket_request.c:86-94 | When a recv ends with a frame that ends its message, whole messages that come later are handed on as they were sent, however they are cut. |
| `WebSocketCuts.KeyIsLost` | src/cn/studease/core/stu_websocket_request.c:86-94 | A masked 1 behind `a` and `b` comes out as 254 if it comes in their recv, and as 1 if it comes in one of its own. |
| `WebSocket.EncodeFrame` | src/cn/studease/core/stu_websocket_request.c:416-445 | The buffer holds a well-formed frame of the payload (section 5.2 of RFC 6455), header right in front, nothing else touched. |
| `Calendar.EstimateNear` | src/cn/studease/core/stu_time.c:239-248 | The year estimate is exact or one too large. |
| `Calendar.YearFound` | src/cn/studease/core/stu_time.c:248-255 | After the correction the year and the day in it are right. |
| `Calendar.DateOfDay` | src/cn/studease/core/stu_time.c:239-285 | The date is a real date, and counting its days gives the day back. |
| `Calendar.DayOfDate` | src/cn/studease/core/stu_time.c:239-285 | Every real date from 1970 on is the date of its day, and of no other. |
| `Calendar.NextDay` | src/cn/studease/core/stu_time.c:239-285 | One day later the date is the successor under the leap-year rules. |
| `Calendar.DateIsCounted` | src/cn/studease/core/stu_time.c:239-285 | The closed form agrees with counting days from January 1, 1970. |
| `Calendar.Gregorian` | src/cn/studease/core/stu_time.c:239-285 | The rules in numbers: the length of each month, leap years, and the day after each day. |
| `Calendar.GmtimeCorrect` | src/cn/studease/core/stu_time.c:219-297 | Date, time of day and weekday are right for every time below 2^63; the year, cast to int, is right if and only if the time is before the year 2147483648. |
| `Calendar.NoOverflow` | src/cn/studease/core/stu_time.c:239-249 | No intermediate value leaves 64 bits. |
| `TimeSlots.NextInv` | src/cn/studease/core/stu_time.c:66-146 | Every step of the updater keeps: published pointers lead to whole slots of the last advance or the one before, never to the slot being written. |
| `TimeSlots.ReadersAreSafe` | src/cn/studease/core/stu_time.c:74-146 | Over every run, what a published pointer leads to keeps its seconds and strings until the 64th later advance starts. |
| `TimeSlots.SafeFor` | src/cn/studease/core/stu_time.c:74-146 | A pointer to the slot of the last advance keeps its second and strings through 63 further advances, one to the slot before through 62. |
| `TimeSlots.BoundIsExact` | src/cn/studease/core/stu_time.c:74-146 | At the 64th later advance the slot is the one that is filled again, in every run. |
| `TimeSlots.Update` | src/cn/studease/core/stu_time.c:66-146 | An update without interruption refreshes the milliseconds or fills the next slot and publishes it, touching no other slot. |
| `Upstream.Servers.Choose` | src/cn/studease/core/stu_upstream.c:51-75 | The choice is the server whose turn it is in the periodic schedule, and the loop ends: a new list begins with its first server with a weight, a server is chosen until it has had its share, and then the next one round the list that has a weight. |
| `Upstream.ChooseMany` | src/cn/studease/core/stu_upstream.c:228-252 | A row of choices, whoever asks, follows the schedule. |
| `Upstream.Fair` | src/cn/studease/core/stu_upstream.c:61-73 | In any row of choices as long as the sum of the weights each server is chosen exactly as often as its weight says. |
| `Upstream.EndsIff` | src/cn/studease/core/stu_upstream.c:62-73 | The loop ends if and only if some weight is positive, and then within twice the length of the list. |
| `Upstream.TotalPositive` | src/cn/studease/core/stu_upstream.c:62-73 | The sum of the weights is positive exactly if one of them is. |
| `Uri.UnescapeUri` | src/cn/studease/core/stu_string.c:206-342 | In place, with destination in front of or at the source, the result is the decoding of the original bytes; writing never passes reading, and nothing else changes. |
| `Uri.RoundTrip` | src/cn/studease/core/stu_string.c:206-342 | With type 0, whatever form each byte was written in (raw, escaped with digits of either case, plus for blank), decoding gives the bytes back. |
| `Uri.DecodeIs` | src/cn/studease/core/stu_string.c:215-338 | What becomes of the first byte or escape, for every type, with `%xy` read as the byte 16x + y. |
| `Uri.StopsAtQuery` | src/cn/studease/core/stu_string.c:226-229 | In a URI decoding stops behind the question mark. |
| `Uri.LetterBits` | src/cn/studease/core/stu_string.c:267-272 | The test with the bit 0x20 set recognises exactly the letters of hexadecimal digits. |
| `Uri.HexIs` | src/cn/studease/core/stu_string.c:233-275 | The digits and their values: 0 to 9, and A to F or a to f. |
| `Base64.GroupIsNumber` | src/cn/studease/core/stu_base64.c:57-62 | The shifts write the 24-bit number of three bytes in base 64. |
| `Base64.BasisIs` | src/cn/studease/core/stu_base64.c:17-19 | The characters in their order: A to Z, a to z, 0 to 9, plus and slash. |
| `Base64.EncodeAt` | src/cn/studease/core/stu_base64.c:48-87 | Each group of the encoding is the 24-bit number of three bytes in four characters, with `=` where there is no byte. |
| `Base64.DecodeNeeds` | src/cn/studease/core/stu_base64.c:89-108 | Decoding fails exactly if there is an invalid character in front of the first `=` or one character more than whole groups; its length is what the characters hold. |
| `Base64.OctetsAt` | src/cn/studease/core/stu_base64.c:110-128 | Each group of characters gives the bytes of its 24-bit number. |
| `Base64.EncodeBase64` | src/cn/studease/core/stu_base64.c:48-87 | The loop writes the encoding and nothing behind it; its length is `stu_base64_encoded_length`. |
| `Base64.DecodeBase64` | src/cn/studease/core/stu_base64.c:89-131 | The result is an error exactly if decoding is undefined; otherwise the decoded bytes, within `stu_base64_decoded_length`. |
| `Base64.DecodeEncode` | src/cn/studease/core/stu_base64.c:48-131 | Decoding undoes encoding, for all byte strings. |
| `Base64.EncodeDecode` | src/cn/studease/core/stu_base64.c:48-131 | Encoding undoes decoding on canonical padded text. |
| `Base64.CanonicalIff` | src/cn/studease/core/stu_base64.c:89-131 | Text survives decoding and encoding if and only if it is canonical. |

## Left out

- Sockets, epoll, processes, signals, shared memory, files and logging: system calls.
- Locks and threads: every operation is one step, except that the time slots are interleaved step by step.
- Allocation failure, and what happens to released memory.
- Foreign code: `strtod`, formatted output, `localtime_r`, MD5, SHA-1.
- `stu_rbtree_insert_value`: nothing in the server uses it.
- Hash keys with a NUL: the model keeps the bytes behind it, which the program neither copies nor compares.
- `stu_json_remove_item_from_array`, `stu_json_remove_item_from_object`, `stu_json_duplicate`, `stu_json_delete`: not modelled.
- The JSON reader builds values, with children as lists; the pointer chain of children is modelled apart, in `JsonItems`.
- NaN and infinities of JSON numbers: numbers are reals.
- A connection that joins again without leaving first, and a change of its user id while it is joined.
- JSON strings and keys with a NUL between their quotes: the model keeps the bytes behind it, of which the program keeps only the number.
- `stu_http_parse_request_line`, `stu_http_parse_status_line` and `stu_http_arg`.
- What the program receives after it has waited for the rest of a request: it takes it for a request line, in a buffer that was cleared.
- The handlers of known HTTP headers are one parameter that accepts or refuses a header in view of the headers before it.
- WebSocketCuts.SplitIsLost: says nothing of recvs that end inside a frame of such a message, or with one that has no payload.
- WebSocketCuts.ChunksIff: frames behind one that does not end its message are continuations or control frames, as the protocol demands.
- WebSocket buffers have room for what arrives and is put together, the buffer is not moved back to its start when it is used up, and the payloads of earlier frames are kept as values, not as pointers into it.
- What becomes of a request that was handed on: `stu_websocket_analyze_request`.
- The branches of `stu_unescape_uri` for an invalid digit behind a percent sign: both digits are checked before, so they are never taken.
- `stu_upstream_connect`, retries and request handling, configuration, user roles, flash policy: settled by reading one branch.
- Timer.Timers.Cancel: states the whole loop where it ends; where it does not, `Timer.CancelEndsIff` and `Timer.Timers.CancelOne` say so turn by turn.
- Json.ParseNumber: a number is what the parameter for strtod says it is.
