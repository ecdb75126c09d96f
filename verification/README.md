# GatorGrid: a verified model of the mesh and its servers

GatorGrid joins pairs of Pico W boards into a tree of nodes. Each node has an access-point half
(AP), which its children connect to, and a station half (STA), which is connected to the parent's
AP; a UART joins the two halves. Both halves keep a `ChildrenTree`, and messages are routed by it.
This project models that protocol, the tree, the message framing, and the DHCP and DNS servers of
an access point, and proves what they are for.

`dafny verify dfyconfig.toml` checks everything.

## What is in it

| file | what it holds |
|---|---|
| `Trees`, `TreeOps`, `LevelOrder`, `Printer` | trees as values: lookup, insertion, next hop, merge, level-order insertion, the JSON text and a reader for it |
| `ChildrenTree` | the linked tree: nodes with four child slots and parent pointers, proved against the values |
| `Mesh` | what each handler of the two halves does, as functions |
| `MeshNodes` | the two halves as objects with a linked tree each, whose handlers refine those functions |
| `Network`, `NetworkInvariant`, `NetworkSteps` | the network as a transition system, its invariant, and that every step keeps it |
| `NetworkTheorems` | nesting of knowledge, soundness, convergence, next-hop table |
| `Replication` | the STA's tree follows the AP's along every run |
| `Routing`, `TurningPoint` | no U-turn in any reachable state; the exact route at rest |
| `Drain` | every schedule of deliveries comes to rest |
| `Delivery`, `Exchange` | what becomes of a data message: who gets it and who acknowledges it; what is left when the ACK has arrived too |
| `Handlers` | what each handler does, by its effects, in any state |
| `Sequences` | slices and joins |
| `Bytes`, `Framing`, `Layout` | bytes, the packed messages, TCP relays and UART crossings; the layouts byte by byte |
| `SerialRing` | the ring of receive buffers |
| `DhcpOptions`, `DhcpLeases`, `DhcpServer` | options, lease table, server |
| `Dns` | the DNS server |

## How the network is modelled

A state has the true topology and, for each node, its two halves and four FIFO queues: UART in both
directions, and both directions of the TCP connection to the parent's AP. A step is one handler call
on the head of one queue, a node joining, or an application sending. Runs are arbitrary sequences of
steps. The assumptions are part of the definitions in `Network`:

- Ids are distinct and none is UINT32_MAX. A node joins once, under a node already in the network
  that has fewer than four children; its AP starts with itself as tree.
- Queues are reliable and keep order; each delivery is one whole message; handlers are atomic.
- A STA handles UART messages only after it has connected and sent its init.
- The root's STA has no parent; what it would send up is dropped.
- A connection is named by the node at its far end.

Where the comments of the code and the code differ, the model follows the code:

- At an AP the ACK flag starts true and wins over the flag that sends a message on to the STA. So
  updates are never tunnelled, although a comment says that they are always forwarded up
  (libraries/MeshNode/APMessageHandling.cpp:194-197), and data that reaches its destination from
  below is not handed to the STA's ring buffer. The AP acknowledges it through `send_msg`, so the
  ACK is sent only if the sender is a child or grandchild of the destination; a sender further down
  gets neither. `DeliveredExactly` and `WhatBecomesOfData` give the exact conditions for a sender
  at rest, and `LostAtTheRoot` a network in which data is lost. `ExchangeLeaves` follows the ACK to
  its end.
- Updates take effect only if they come from a direct client, so a node learns its descendants to
  depth two and no further. `TurnsAtLowestCommonAncestor` says what that means for routing.
- `STANode::send_data` goes up whatever the tree says; the routes are those of `send_msg`.
- A message to the sending node itself is not delivered in place (`SentToSelf`).
- A slot of the serial ring is said to last for fifteen further messages
  (libraries/SerialRingBuffer/SerialRingBuffer.hpp:43-44); it lasts for 15 - n, where n were queued when
  it was taken (`IntactExactly`).

The DHCP model takes time in milliseconds without bound and gives the server the clock modulo 2^32.
Buffers on the stack start with arbitrary contents, which are parameters.

## Model

| member | source | states |
|---|---|---|
| `Drain.ComesToRest` | libraries/MeshNode/APMessageHandling.cpp:90-222 | from any reachable state every schedule of deliveries ends within a bound, and only where all queues are empty and both trees of every node are the true subtree cut at depth two |
| `Drain.DeliveryLighter` | libraries/MeshNode/APMessageHandling.cpp:56-298 | every single delivery, on any queue, lowers one measure of the whole network: an update or init pays for its ACK, a node-add for its update, data for its ACK |
| `Drain.ScheduleIsShort` | libraries/MeshNode/STAMessageHandling.cpp:405-461 | a schedule is no longer than that measure |
| `Drain.AtRest` | libraries/MeshNode/APMessageHandling.cpp:56-61 | nothing is deliverable exactly when every queue is empty; no queue with a message in it can be stuck |
| `Drain.ApIncomingLighter` | libraries/MeshNode/APMessageHandling.cpp:121-147 | what an AP sends for a message from below weighs less than the message, for every kind of message |
| `Drain.StaIncomingLighter` | libraries/MeshNode/STAMessageHandling.cpp:170-192 | what a STA sends for a relayed message weighs less than the message, and its tree stays as it is |
| `Drain.NodeAddLighter` | libraries/MeshNode/STAMessageHandling.cpp:412-436 | a node-add fills one place in the STA's tree, which pays for the update it sends up |
| `Drain.SerialDownLighter` | libraries/MeshNode/APMessageHandling.cpp:481-490 | handing a message from the STA down to a child lowers the measure |
| `TurningPoint.TurnsAtLowestCommonAncestor` | libraries/MeshNode/STAMessageHandling.cpp:298-403 | at rest a message sent with `send_msg` to another node takes exactly the route over the lowest common ancestor: down from there if that node is or knows the destination, with as many TCP links as the tree distance; else out at the root after as many links as its depth |
| `TurningPoint.StrangerLeavesAtTheRoot` | libraries/MeshNode/STAMessageHandling.cpp:387-394 | a destination outside the network is looked for up to the root and the message leaves there |
| `TurningPoint.SentToSelf` | libraries/MeshNode/STAMessageHandling.cpp:389-394 | a message to itself is not delivered in place: it goes up to the parent and comes back, and at the root it is dropped |
| `TurningPoint.NobodyHigher` | libraries/MeshNode/APMessageHandling.cpp:143-147 | above a common ancestor that does not know the destination no node knows it |
| `TurningPoint.StopIsLca` | libraries/MeshNode/APMessageHandling.cpp:139-147 | the first node on the way up that is or knows the destination is the lowest common ancestor, if there is one |
| `TurningPoint.MovesUp` | libraries/MeshNode/APMessageHandling.cpp:121-148 | one step of a lone message from below: stop, turn down at the destination's parent or grandparent, or go on to the STA |
| `TurningPoint.MovesDown` | libraries/MeshNode/STAMessageHandling.cpp:182-189 | one step of a lone message from above: stop at its destination or go over to the AP |
| `TurningPoint.MovesToSta` | libraries/MeshNode/STAMessageHandling.cpp:441-450 | one step of a lone message from the AP: stop or go up |
| `TurningPoint.MovesToAp` | libraries/MeshNode/APMessageHandling.cpp:442-457 | one step of a lone message from the STA: down to the first hop |
| `TurningPoint.SentAlone` | libraries/MeshNode/STAMessageHandling.cpp:387-399 | `send_msg` of the STA puts the message on the UART if the destination is a child or grandchild, else on the link up |
| `TurningPoint.ExpectedLinks` | libraries/MeshNode/APMessageHandling.cpp:442-455 | the route over the lowest common ancestor has as many links as the tree distance |
| `Routing.NoUTurn` | libraries/MeshNode/APMessageHandling.cpp:300-345 | from any reachable state, with joins and other traffic in between, a message that took a downward hop never takes an upward one, and relaying ends within depth-up plus two links |
| `Routing.HopDescends` | libraries/MeshNode/APMessageHandling.cpp:442-455 | each hop lowers the rank of a message, in any state of the invariant |
| `Routing.HopUp` | libraries/MeshNode/APMessageHandling.cpp:121-148 | where a message from below goes, and the whole state after it: it is on its way up or down, or it has ended here, and then the AP answers with an ACK if its tree has a path to the sender |
| `Routing.HopDown` | libraries/MeshNode/STAMessageHandling.cpp:170-228 | where a message from above goes: it is for this node or for a true child of it, and the whole state after it: data is delivered and answered, of an ACK nothing is left |
| `Routing.HopToAp` | libraries/MeshNode/APMessageHandling.cpp:300-311 | what comes over from the STA has a first hop with a connection, straight to the destination if that is a child |
| `Routing.HopToSta` | libraries/MeshNode/STAMessageHandling.cpp:441-450 | what comes over from the AP goes up unless it is for this node or at the root; the whole state after it: of an ACK for this node nothing is left |
| `NetworkTheorems.KnowledgeNests` | libraries/MeshNode/APMessageHandling.cpp:203-218 | in every reachable state the parent's list of a child's children is a prefix of the list in the child's STA tree, which is a prefix of the list in its AP tree |
| `NetworkTheorems.NewsLiesBetween` | libraries/MeshNode/STAMessageHandling.cpp:422-436 | the child lists of updates in flight lie between those prefixes, the later the longer |
| `NetworkTheorems.StaFollowsAp` | libraries/MeshNode/APMessageHandling.cpp:109-115 | in every reachable state an AP tree is the STA tree with the queued node-adds applied in order; with the messages before it put in, a queued node-add is new to the tree and a queued message has no path in it |
| `NetworkTheorems.OnlyNodeAddsReachTheSta` | libraries/MeshNode/STAMessageHandling.cpp:412-419 | a STA tree changes in no way but by a node-add of its own AP |
| `NetworkTheorems.DeliveredFromAboveOnly` | libraries/MeshNode/STAMessageHandling.cpp:170-180 | in every reachable state: an application gets a data message exactly when the message arrives for its node from above, an ACK goes out then, and nothing from below or over the UART is put in the ring buffer |
| `NetworkTheorems.NoInitNoUpdateComes` | libraries/MeshNode/STAMessageHandling.cpp:159-214 | no init and no update reaches the other tree-changing branches of a STA, neither from its parent nor tunnelled over the UART |
| `NetworkTheorems.EdgesAreTrue` | libraries/MeshNode/APMessageHandling.cpp:90-119 | every edge in a tree, node-add or update is a true parent-child edge, and no tree holds an id twice |
| `NetworkTheorems.QuietTrees` | libraries/MeshNode/APMessageHandling.cpp:188-222 | with empty queues both trees agree, and the list under each child is the list the child itself has |
| `NetworkTheorems.Converged` | libraries/MeshNode/STAMessageHandling.cpp:412-436 | with empty queues both trees of a node are the true subtree cut at depth two: the node, its children and its grandchildren and nobody else, the first two levels' lists complete, all others empty |
| `NetworkTheorems.NextHopTable` | libraries/MeshNode/APMessageHandling.cpp:203-208 | the connections by id are those of the direct children in the tree, a found path always has one, and the endless loop of the update branch is never entered |
| `Replication.StaCatchesUp` | libraries/MeshNode/STAMessageHandling.cpp:412-419 | over whole runs, whatever else happens: when the STA has handled just the UART messages that are queued now, its tree is the tree its AP has now; after k of them, its tree with these k put in |
| `Replication.HandledWithTreeOfSending` | libraries/MeshNode/APMessageHandling.cpp:109-115 | over whole runs: when the turn of a UART message comes, it is at the front of the queue and the STA tree is the tree the AP had when it sent that message, with the node-adds it sent before it in the same step |
| `Replication.Replays` | libraries/MeshNode/STAMessageHandling.cpp:412-419 | along any run the STA works off the messages at the front of its queue in order, and only they change its tree |
| `Replication.UartStep` | libraries/MeshNode/STAMessageHandling.cpp:405-411 | a step takes the front off a UART queue if it is that STA's, and otherwise at most adds behind |
| `Replication.TreeStep` | libraries/MeshNode/STAMessageHandling.cpp:412-419 | the STA tree after any step |
| `Delivery.WhatBecomesOfData` | libraries/MeshNode/STAMessageHandling.cpp:170-180 | the state after the journey of data that a STA sends with `send_msg` at rest: delivered and acknowledged by the STA if it comes to its node from above; from below not delivered, and acknowledged by the AP exactly if the sender is its child or grandchild; in all other cases the network is as it was |
| `Delivery.DeliveredExactly` | libraries/MeshNode/STAMessageHandling.cpp:170-180 | the application of the destination gets the data, once, if and only if the lowest common ancestor is another node and knows the destination, or the sender sends to itself and is not the root; no other application gets anything |
| `Delivery.LostAtTheRoot` | libraries/MeshNode/APMessageHandling.cpp:272-276 | in the chain 0-1-2-3 data from 3 to the root leaves no trace, not even an ACK; data from 1 to the root is acknowledged but delivered to nobody |
| `Delivery.AckAtRest` | libraries/MeshNode/APMessageHandling.cpp:443-446 | at rest an AP's answer goes to a child or grandchild, over the child on the way, and to nobody else |
| `Delivery.EndsAtSta` | libraries/MeshNode/STAMessageHandling.cpp:170-180 | data for its node from above goes into the ring buffer and an ACK goes up |
| `Delivery.EndsAtAp` | libraries/MeshNode/APMessageHandling.cpp:121-139 | data for its node from below is answered by the AP and nothing else |
| `Delivery.EndsAtRoot` | libraries/MeshNode/STAMessageHandling.cpp:441-450 | what nobody knows ends at the root's STA and leaves the network as it was |
| `Delivery.JourneyEnds` | libraries/MeshNode/APMessageHandling.cpp:300-345 | a lone message, by its own steps, comes along its route to the last place and makes one last step there |
| `Exchange.ExchangeLeaves` | libraries/MeshNode/STAMessageHandling.cpp:225-228 | data sent with `send_msg` at rest, and the ACK of it, each to the end of its own steps: the network is as it was before, but that the application of the destination has the data if it came from above |
| `Exchange.EveryScheduleSettles` | libraries/MeshNode/STAMessageHandling.cpp:170-275 | the same for every schedule of deliveries that comes to rest, whichever queue is served first |
| `Exchange.AcksLeaveNothing` | libraries/MeshNode/STAMessageHandling.cpp:225-228 | an ACK sent at rest, whoever it is for, leaves the network as it was |
| `Exchange.AckEnds` | libraries/MeshNode/STAMessageHandling.cpp:225-228 | so does any lone ACK from any place |
| `Exchange.AckVanishes` | libraries/MeshNode/STAMessageHandling.cpp:270-275 | where an ACK stops nothing is sent and nothing changes |
| `Exchange.AckSchedule` | libraries/MeshNode/STAMessageHandling.cpp:225-228 | a lone ACK leaves nothing under any schedule |
| `Exchange.JourneyForced` | libraries/MeshNode/APMessageHandling.cpp:300-345 | no schedule can do anything but the own steps of a lone message |
| `Handlers.ApSendsExactly` | libraries/MeshNode/APMessageHandling.cpp:365-458 | `send_msg` of the AP, in any state: what it sends goes unchanged over the connection of the first child whose subtree holds the destination; it sends nothing only if the message has no destination, there is no such child, or the child has no connection |
| `Handlers.StaSendsExactly` | libraries/MeshNode/STAMessageHandling.cpp:298-403 | `send_msg` of the STA, in any state: each message with a destination leaves exactly once, unchanged, over to the AP or up |
| `Handlers.ApHandles` | libraries/MeshNode/APMessageHandling.cpp:56-298 | in any state: when the AP is stuck, which messages it answers with an ACK, which it passes on, and exactly which it hands to the STA |
| `Handlers.ApChanges` | libraries/MeshNode/APMessageHandling.cpp:90-222 | in any state: what of the AP an init or an update changes, and that nothing else does |
| `Handlers.NamedOnce` | libraries/MeshNode/APMessageHandling.cpp:100-112 | an id keeps its connection and a connection its id; a first init enters both |
| `Handlers.LearnExactly` | libraries/MeshNode/APMessageHandling.cpp:210-218 | from a child list without repeats every new id is reported once, in order, also when it does not fit; the list grows by those that fit four places |
| `Handlers.ParentIsTheLastTold` | libraries/MeshNode/APMessageHandling.cpp:467-478 | over any run of UART messages: the AP's parent is the one last told, none after a removal |
| `Handlers.StaHandles` | libraries/MeshNode/STAMessageHandling.cpp:137-288 | in any state: exactly data for the node is delivered and answered, data and ACKs for others leave exactly once and unchanged, nothing else leaves |
| `Handlers.StaHearsAp` | libraries/MeshNode/STAMessageHandling.cpp:441-460 | tunnelled messages are handled alike, of at most 123 bytes; a node-remove or an error changes nothing |
| `Handlers.StaReports` | libraries/MeshNode/STAMessageHandling.cpp:412-436 | in any state: a node-add is told to the parent, with the list the node now has, exactly if the node is in the tree |
| `NetworkSteps.StepOk` | libraries/MeshNode/APMessageHandling.cpp:56-298 | every step - join, delivery on any queue, application send - keeps the invariant |
| `NetworkSteps.ReachableOk` | libraries/MeshNode/APMessageHandling.cpp:460-502 | the invariant holds after every run from a lone root |
| `NetworkSteps.DeliverUpOk` | libraries/MeshNode/APMessageHandling.cpp:89-270 | any message at the head of a link to an AP can be delivered, keeps the invariant and does not end in the endless loop |
| `NetworkSteps.InitOk` | libraries/MeshNode/APMessageHandling.cpp:90-119 | an init makes the child the newest direct child with its connection, the STA is told by one node-add, the child gets an ACK, and the invariant is kept |
| `NetworkSteps.UpdateOk` | libraries/MeshNode/APMessageHandling.cpp:188-222 | an update of a child makes the parent's list of it the list in the message and leaves all other lists, the child gets an ACK, and the invariant is kept |
| `NetworkSteps.FarUpdateOk` | libraries/MeshNode/APMessageHandling.cpp:199-203 | an update about a grandchild is acknowledged over the child it came from and changes nothing else at the AP |
| `NetworkSteps.RelayUpOk` | libraries/MeshNode/APMessageHandling.cpp:121-148 | data and ACKs from below keep the invariant |
| `NetworkSteps.DeliverDownOk` | libraries/MeshNode/STAMessageHandling.cpp:170-236 | messages from above keep the invariant |
| `NetworkSteps.SerialDownOk` | libraries/MeshNode/APMessageHandling.cpp:481-490 | what the STA hands over keeps the invariant |
| `NetworkSteps.TunnelUpOk` | libraries/MeshNode/STAMessageHandling.cpp:441-450 | what the AP hands over keeps the invariant |
| `NetworkSteps.NodeAddOk` | libraries/MeshNode/STAMessageHandling.cpp:412-436 | the whole state after a node-add: the STA tree has the edge the AP added, and the grown list goes up in an update, unless this is the root; the invariant is kept |
| `NetworkSteps.NodeAddTells` | libraries/MeshNode/STAMessageHandling.cpp:412-436 | that list is the one the STA had with the new child behind it, and a true list |
| `NetworkSteps.LearnOk` | libraries/MeshNode/APMessageHandling.cpp:210-218 | new children of an update are added in order and reported once each |
| `NetworkSteps.RegisterOk` | libraries/MeshNode/APMessageHandling.cpp:100-112 | registering a child adds it as direct child with its connection and leaves all other entries |
| `NetworkSteps.ParentOutside` | libraries/MeshNode/STAMessageHandling.cpp:389 | the parent a STA sends its updates to is never in its own tree, so an update always goes up |
| `NetworkSteps.JoinOk` | libraries/MeshNode/MeshNodeAP.cpp:226-253 | a node that joins and sends its init keeps the invariant |
| `NetworkSteps.PostGoes` | libraries/MeshNode/APMessageHandling.cpp:442-457 | what an AP sends goes to the child that is the destination or has it as child; a destination without a path is not sent to |
| `NetworkSteps.PostOk` | libraries/MeshNode/APMessageHandling.cpp:442-457 | what an AP sends keeps the invariant |
| `NetworkInvariant.TreeAdd` | libraries/ChildrenTree/ChildrenTree.cpp:109-126 | a true edge within depth two is accepted and keeps a tree of true edges in order |
| `NetworkInvariant.QueueGrows` | libraries/MeshNode/APMessageHandling.cpp:109-115 | along the UART queue child lists only grow and routes stay |
| `NetworkInvariant.LinkPush` | libraries/MeshNode/STAMessageHandling.cpp:422-436 | what a STA sends up keeps the chain of child lists on the link |
| `NetworkInvariant.TwoStations` | libraries/MeshNode/APMessageHandling.cpp:203-218 | a child and its parent can change together without touching any other node |
| `MeshNodes.ApNode.HandleIncomingData` | libraries/MeshNode/APMessageHandling.cpp:56-298 | the AP handler, with its flags, does what `Mesh.ApIncoming` says and sends just that |
| `MeshNodes.ApNode.TakeInit` | libraries/MeshNode/APMessageHandling.cpp:90-119 | the init branch on the maps and the linked tree |
| `MeshNodes.ApNode.TakeChildren` | libraries/MeshNode/APMessageHandling.cpp:210-218 | the loop over an update's children adds and reports those that are new |
| `MeshNodes.ApNode.HandleSerialMessage` | libraries/MeshNode/APMessageHandling.cpp:460-502 | the AP's UART handler |
| `MeshNodes.ApNode.HandleTransferringData` | libraries/MeshNode/APMessageHandling.cpp:300-349 | what comes over from the STA is sent down or dropped |
| `MeshNodes.ApNode.SendMsg` | libraries/MeshNode/APMessageHandling.cpp:365-458 | sending down the connection of the first hop, with the error result |
| `MeshNodes.ApNode.SendData` | libraries/MeshNode/APMessageHandling.cpp:351-363 | the application's send, the length cut to eight bits; the caller is never told of a failure |
| `MeshNodes.ApNode.Accept` | libraries/MeshNode/MeshNodeAP.cpp:226-253 | a new connection without an id |
| `MeshNodes.StaNode.HandleIncomingData` | libraries/MeshNode/STAMessageHandling.cpp:137-288 | the STA handler, with its flags, does what `Mesh.StaIncoming` says and sends just that |
| `MeshNodes.StaNode.HandleSerialMessage` | libraries/MeshNode/STAMessageHandling.cpp:405-462 | the STA's UART handler: the tree grows by the edge and the list goes up |
| `MeshNodes.StaNode.SendMsg` | libraries/MeshNode/STAMessageHandling.cpp:298-403 | over to the AP if the tree has a path, else up |
| `MeshNodes.StaNode.SendData` | libraries/MeshNode/STAMessageHandling.cpp:290-296 | the application's send, the length cut to eight bits, goes up whatever the tree says |
| `MeshNodes.StaNode.TakeId` | libraries/MeshNode/MeshNodeSTA.cpp:243 | the STA takes over the id of its AP as id and as root of its tree |
| `ChildrenTrees.ChildrenTree.AddAnyChild` | libraries/ChildrenTree/ChildrenTree.cpp:109-126 | on the linked tree: the new node is last under the first node with the id, refused if there is none or its four slots are taken; pointers, slots and counts stay in order |
| `ChildrenTrees.ChildrenTree.AddChild` | libraries/ChildrenTree/ChildrenTree.cpp:83-107 | always succeeds, and does what level-order insertion does |
| `ChildrenTrees.ChildrenTree.FindOpen` | libraries/ChildrenTree/ChildrenTree.cpp:88-103 | the queue search ends at the first open node in level order |
| `ChildrenTrees.ChildrenTree.FindNode` | libraries/ChildrenTree/ChildrenTree.cpp:128-145 | finds the first node in preorder with the id, or nothing if there is none |
| `ChildrenTrees.ChildrenTree.NodeExists` | libraries/ChildrenTree/ChildrenTree.cpp:147-152 | true exactly for the ids in the tree |
| `ChildrenTrees.ChildrenTree.FindPathParent` | libraries/ChildrenTree/ChildrenTree.cpp:163-190 | the root's child whose subtree holds the id, or UINT32_MAX and false |
| `ChildrenTrees.ChildrenTree.FindParentRecursive` | libraries/ChildrenTree/ChildrenTree.cpp:193-208 | true exactly for ids below the node |
| `ChildrenTrees.ChildrenTree.GetChildren` | libraries/ChildrenTree/ChildrenTree.cpp:247-258 | copies out exactly the child ids, in slot order, and touches no other slot |
| `ChildrenTrees.ChildrenTree.UpdateNode` | libraries/ChildrenTree/ChildrenTree.cpp:260-280 | the merge of a child list, round by round; no node but the one with the id gets or loses a child |
| `ChildrenTrees.ChildrenTree.Merge` | libraries/ChildrenTree/ChildrenTree.cpp:267-276 | one round of the merge |
| `ChildrenTrees.ChildrenTree.HasChild` | libraries/ChildrenTree/ChildrenTree.cpp:268-274 | the inner search of the merge |
| `ChildrenTrees.ChildrenTree.EditHead` | libraries/ChildrenTree/ChildrenTree.cpp:20-22 | only the root's id changes |
| `ChildrenTrees.ChildrenTree.SerializeTree` | libraries/ChildrenTree/ChildrenTree.cpp:293-296 | the printed text is that of the tree of ids |
| `ChildrenTrees.ChildrenTree.SerializeNode` | libraries/ChildrenTree/ChildrenTree.cpp:282-291 | the same for a subtree |
| `ChildrenTrees.ChildrenTree.constructor` | libraries/ChildrenTree/ChildrenTree.hpp:26-28 | a tree of one node |
| `TreeOps.UpdateNodeMerges` | libraries/ChildrenTree/ChildrenTree.cpp:260-280 | the merge succeeds exactly if the node is there and the merged list fits four slots; it then has the old list and the new ids in order without repeats, every other id that is not in the tree twice keeps its list, and a second call changes nothing |
| `TreeOps.MergedMembers` | libraries/ChildrenTree/ChildrenTree.cpp:266-277 | the merged list has the members of both lists and no others |
| `TreeOps.MergedInOrder` | libraries/ChildrenTree/ChildrenTree.cpp:266-277 | the new ones come in the order of the list |
| `TreeOps.UpdateNodeFills` | libraries/ChildrenTree/ChildrenTree.cpp:260-277 | a merge that does not fit leaves the first four; one of an absent node leaves the tree |
| `LevelOrder.AddChildIsLevelOrder` | libraries/ChildrenTree/ChildrenTree.cpp:83-107 | the queue of the source and the rule "shallowest open node, leftmost of those" pick the same node |
| `LevelOrder.BuildIsComplete` | libraries/ChildrenTree/ChildrenTree.cpp:210-231 | a tree built with `add_child` alone is the complete 4-ary tree of its insertion order: level order is insertion order and node i has the children 4i+1 .. 4i+4 |
| `LevelOrder.BuildHeight` | libraries/ChildrenTree/ChildrenTree.cpp:83-107 | such a tree of n nodes has 4^height <= 3n - 2 |
| `Trees.PathFindsSub` | libraries/ChildrenTree/ChildrenTree.cpp:163-190 | next-hop search succeeds for exactly the ids that lookup finds, and names the child whose subtree holds the node lookup returns |
| `Trees.InsertPath` | libraries/ChildrenTree/ChildrenTree.cpp:163-190 | adding a fresh id leaves every older route, and gives the new id its parent's next hop, or itself under the head |
| `Trees.InsertKids` | libraries/ChildrenTree/ChildrenTree.cpp:121-124 | adding grows one child list at its end and no other |
| `Trees.InsertLabels` | libraries/ChildrenTree/ChildrenTree.cpp:121-124 | adding a new id keeps ids unique and adds one node |
| `Printer.TextReads` | libraries/ChildrenTree/ChildrenTree.cpp:282-296 | reading the printed text back gives the tree: ids in decimal, shape and child order |
| `Printer.TextIsUnambiguous` | libraries/ChildrenTree/ChildrenTree.cpp:293-296 | equal text means equal trees |
| `Printer.DecimalReads` | libraries/ChildrenTree/ChildrenTree.cpp:284 | decimal ids are read back |
| `Printer.NoLeadingZero` | libraries/ChildrenTree/ChildrenTree.cpp:284 | no number but zero begins with a zero |
| `Printer.DecimalIsTheOnly` | libraries/ChildrenTree/ChildrenTree.cpp:284 | the printed text is the only one for its number: any digits without a leading zero are what is printed for the number they mean |
| `Printer.SampleText` | libraries/ChildrenTree/ChildrenTree.cpp:282-291 | the text of a tree of three nodes, character by character |
| `Framing.ArrivesWhole` | libraries/MeshNode/STAMessageHandling.cpp:257-264 | every message of at most 123 bytes (data of at most 109) is read at the far end of any route, over any number of TCP relays and UART crossings, as what was sent |
| `Framing.WholeExactlyWhenItFits` | libraries/SPI/SerialMessages.hpp:112-116 | a message is safe on every route if and only if its header length is at most 123 |
| `Framing.CutAtFirstUart` | libraries/SPI/SerialMessages.hpp:112-116 | a longer one is cut to exactly 123 bytes at its first UART crossing |
| `Framing.LongDataKeepsItsHead` | libraries/MeshNode/Messages.hpp:130-134 | longer data keeps source, destination, length and its first 109 bytes on any route |
| `Framing.Kept` | libraries/SPI/SerialMessages.hpp:112-137 | the first bytes, up to 123, survive any route, with the length field |
| `Framing.KeptByTcp` | libraries/MeshNode/APMessageHandling.cpp:455 | TCP relays alone keep the whole message |
| `Framing.ParseEncode` | libraries/MeshNode/Messages.hpp:19-76 | the packed layouts read back field by field, whatever lies behind the message |
| `Framing.SerialRoundTrip` | libraries/SPI/SerialMessages.hpp:18-42 | the four UART messages are read as what was sent, whatever memory lies behind the short ones and is sent along |
| `Framing.Encode` | libraries/MeshNode/Messages.hpp:87-275 | a message is as long as its length field says |
| `Framing.TcpDataMsg.constructor` | libraries/MeshNode/Messages.hpp:120-126 | an empty data message |
| `Framing.TcpDataMsg.AddMessage` | libraries/MeshNode/Messages.hpp:130-134 | at most 128 bytes are copied and counted in the length, the count field is the caller's |
| `Framing.TcpDataMsg.SetMsg` | libraries/MeshNode/Messages.hpp:142-144 | taking over a received message |
| `Framing.BuildData` | libraries/MeshNode/STAMessageHandling.cpp:290-292 | what `send_data` builds is the encoding of what it is given, cut to its length modulo 256 |
| `Framing.SerialDataMessage.AddMessage` | libraries/SPI/SerialMessages.hpp:112-116 | at most 123 bytes are copied, with both lengths |
| `Framing.SerialDataMessage.constructor` | libraries/SPI/SerialMessages.hpp:107-110 | an empty UART message |
| `Framing.SerialDataMessage.SetMsg` | libraries/SPI/SerialMessages.hpp:135-137 | taking over a received UART message |
| `Framing.SerialDataMessage.GetData` | libraries/SPI/SerialMessages.hpp:118-129 | what was put in with `add_message` comes out: its first 123 bytes, and how many of them there are |
| `Framing.WithMessageTunnels` | libraries/SPI/SerialMessages.hpp:112-116 | a fresh UART message with a message put in has id, both lengths, the bytes and zeros |
| `Framing.CrossUart` | libraries/MeshNode/STAMessageHandling.cpp:443-447 | sender and receiver of one UART crossing together do what the hop model says |
| `Layout.MessageLayout` | libraries/MeshNode/Messages.hpp:19-68 | the bytes of all six messages at their offsets: priority, id, length, source, parent or destination, counts, payload, children, lowest byte first |
| `Layout.SerialLayout` | libraries/SPI/SerialMessages.hpp:18-42 | the 128 bytes of the four UART messages at their offsets, with their ids and lengths |
| `SerialRing.IntactExactly` | libraries/SerialRingBuffer/SerialRingBuffer.cpp:34-49 | a slot taken out when n messages were queued stays intact for exactly 15 - n further puts, whatever gets come in between |
| `SerialRing.HandedInTurn` | libraries/SerialRingBuffer/SerialRingBuffer.cpp:16-32 | puts go round the slots, however many gets come in between |
| `SerialRing.PutAppends` | libraries/SerialRingBuffer/SerialRingBuffer.cpp:16-32 | a put refines appending to a queue of fifteen and hands out a slot that is not in use |
| `SerialRing.GetTakesOldest` | libraries/SerialRingBuffer/SerialRingBuffer.cpp:34-49 | a get refines taking the oldest |
| `SerialRing.PutsFit` | libraries/SerialRingBuffer/SerialRingBuffer.cpp:16-32 | the 15 - n further puts and the one that reuses the slot do fit |
| `SerialRing.SerialRingBuffer.BufferPut` | libraries/SerialRingBuffer/SerialRingBuffer.cpp:16-32 | the fields after a put |
| `SerialRing.SerialRingBuffer.BufferGet` | libraries/SerialRingBuffer/SerialRingBuffer.cpp:34-49 | the fields after a get |
| `SerialRing.SerialRingBuffer.Receive` | libraries/UART/UART.cpp:109-122 | a received message is queued behind the others, unless fifteen are waiting |
| `SerialRing.SerialRingBuffer.ReadBuffer` | libraries/UART/UART.cpp:61-72 | messages come out in the order they came in |
| `SerialRing.SerialRingBuffer.NumOfMessages` | libraries/SerialRingBuffer/SerialRingBuffer.cpp:12-14 | how many are waiting |
| `SerialRing.SerialRingBuffer.constructor` | libraries/SerialRingBuffer/SerialRingBuffer.cpp:6-10 | an empty ring |
| `DhcpServer.AddressesAreExclusive` | libraries/dhcpserver/dhcpserver.c:183-295 | packet by packet: once an address is acknowledged to a client with a non-zero hardware address, no run of packets gets it acknowledged to another client within 86,400,000 ms (sections 4.3.1 and 4.3.2 of RFC 2131) |
| `DhcpServer.Handshake` | libraries/dhcpserver/dhcpserver.c:216-292 | over runs of packets: after a DISCOVER that is answered, and whatever else the client sends meanwhile, its REQUEST for the offered address is answered with type 5, that address and its hardware address |
| `DhcpServer.AnsweredExactly` | libraries/dhcpserver/dhcpserver.c:191-295 | for every table and packet, on its bytes: there is a reply if and only if it has 243 bytes and is a DISCOVER with a slot left for the client or a REQUEST for one of the eight addresses that is its own or free; else the table stays |
| `DhcpServer.DiscoverIsOffered` | libraries/dhcpserver/dhcpserver.c:216-243 | a DISCOVER that is answered gets type 2 and the address of the first slot with its hardware address, else of the first free or expired one |
| `DhcpServer.RequestIsGranted` | libraries/dhcpserver/dhcpserver.c:246-279 | a REQUEST for an address that is the client's or nobody's gets type 5, and the slot is held from then on |
| `DhcpServer.ReplyBytes` | libraries/dhcpserver/dhcpserver.c:284-292 | the 34 bytes of options of every reply, as they stand |
| `DhcpServer.ReplyReadsBack` | libraries/dhcpserver/dhcpserver.c:284-292 | every reply read back gives message type, server id, mask, router, DNS server and a lease of 86,400 seconds, offers the address of the slot and keeps the transaction id and hardware address |
| `DhcpServer.AckIsGrant` | libraries/dhcpserver/dhcpserver.c:249-279 | a packet that is answered with an ACK is a REQUEST for that slot by that client, and was granted |
| `DhcpServer.ServeIsRun` | libraries/dhcpserver/dhcpserver.c:213-282 | the table after a run of packets is the table after what they ask for, in order |
| `DhcpServer.Server.Process` | libraries/dhcpserver/dhcpserver.c:183-295 | the whole server on its buffers: new table and reply, or no reply |
| `DhcpServer.Server.Decide` | libraries/dhcpserver/dhcpserver.c:213-282 | the message-type switch |
| `DhcpServer.AsTheOptionsSay` | libraries/dhcpserver/dhcpserver.c:208-260 | what the server reads is what the options say: the first byte of the message type, and the slot of the requested address if its first three bytes are the server's, whatever the lengths of these options |
| `DhcpServer.Server.MessageType` | libraries/dhcpserver/dhcpserver.c:208-213 | the search for the message type |
| `DhcpServer.Server.RequestedSlot` | libraries/dhcpserver/dhcpserver.c:247-260 | the search for the requested address, and its slot |
| `DhcpServer.Server.WriteReply` | libraries/dhcpserver/dhcpserver.c:241-242 | the last address byte and the message type, and behind them the other options |
| `DhcpServer.Server.WriteOptions` | libraries/dhcpserver/dhcpserver.c:284-289 | the options of every reply behind the message type, in place |
| `DhcpServer.Server.constructor` | libraries/dhcpserver/dhcpserver.c:297-301 | an empty lease table |
| `DhcpServer.SameRequest` | libraries/dhcpserver/dhcpserver.c:202-203 | preparing the reply in the buffer leaves the request readable |
| `DhcpLeases.LeasesAreExclusive` | libraries/dhcpserver/dhcpserver.c:249-278 | the same for runs of DISCOVERs and REQUESTs on the table |
| `DhcpLeases.GrantedExactly` | libraries/dhcpserver/dhcpserver.c:260-271 | for every table and time: a REQUEST is acknowledged if and only if the slot is one of eight and the client's own or free; then it alone changes, and is the client's |
| `DhcpLeases.OfferReserves` | libraries/dhcpserver/dhcpserver.c:216-241 | an offered slot is the client's or nobody's afterwards |
| `DhcpLeases.StaysReserved` | libraries/dhcpserver/dhcpserver.c:215-278 | and stays so whatever the client sends next |
| `DhcpLeases.ExpiredExactly` | libraries/dhcpserver/dhcpserver.c:229-230 | for every grant and every time: the lease reads as expired exactly in the 2^31 ms that follow the end of its stamp, in every round of the clock |
| `DhcpLeases.ExpiryWindow` | libraries/dhcpserver/dhcpserver.c:271 | never expired within the lease, always from 65,536 ms after its deadline until just under 2^31 ms after it |
| `DhcpLeases.StaysHeld` | libraries/dhcpserver/dhcpserver.c:215-278 | within the lease only its holder can change a slot |
| `DhcpLeases.OfferChoice` | libraries/dhcpserver/dhcpserver.c:216-241 | the offered slot is the first with the client's address, else the first free or expired one, free afterwards; only expired slots are cleared; ignored exactly if all eight are held, unexpired, by others |
| `DhcpLeases.Discover` | libraries/dhcpserver/dhcpserver.c:216-235 | the scan loop computes that choice and that table |
| `DhcpLeases.Request` | libraries/dhcpserver/dhcpserver.c:260-271 | the REQUEST branch on the table |
| `DhcpOptions.OptFind` | libraries/dhcpserver/dhcpserver.c:146-154 | in an END-terminated list without pads it ends where the first option with the code begins, or finds none |
| `DhcpOptions.FindAtReads` | libraries/dhcpserver/dhcpserver.c:146-154 | there the option stands, with its length and data, if the list has one |
| `DhcpOptions.ReadEncoded` | libraries/dhcpserver/dhcpserver.c:156-181 | reading undoes writing for every list of options, whatever follows the END |
| `DhcpOptions.OptWriteN` | libraries/dhcpserver/dhcpserver.c:156-162 | an option written in place, and where the next one goes |
| `DhcpOptions.OptWriteU8` | libraries/dhcpserver/dhcpserver.c:164-170 | the same for one byte |
| `DhcpOptions.OptWriteU32` | libraries/dhcpserver/dhcpserver.c:172-181 | the same for a 32-bit number, most significant byte first |
| `DhcpOptions.WriteNext` | libraries/dhcpserver/dhcpserver.c:284-289 | an option written behind others makes the encoding of the longer list |
| `Dns.AnswerIsForTheQuestion` | libraries/dnsserver/dnsserver.c:182-214 | for a complete question the reply keeps id and question, sets flags and counts, and its one record is for the name asked, which a reader finds through the pointer: class IN, type A, 60 s, the server's address (sections 4.1.1 to 4.1.4 of RFC 1035) |
| `Dns.IgnoredExactly` | libraries/dnsserver/dnsserver.c:112-177 | for every packet, on its bytes: it is ignored if and only if it is shorter than 12 bytes, has QR set, another opcode or no question, comes to a label byte above 63 along the name, or its name takes more than 255 bytes |
| `Dns.EveryPacketHasAWay` | libraries/dnsserver/dnsserver.c:153-170 | every packet has the way along its label bytes that this speaks of |
| `Dns.ReplyBytes` | libraries/dnsserver/dnsserver.c:182-214 | every reply byte by byte, also to a name that is cut off |
| `Dns.AnsweredExactly` | libraries/dnsserver/dnsserver.c:149-177 | a complete standard query is answered if and only if its name takes at most 255 bytes |
| `Dns.Process` | libraries/dnsserver/dnsserver.c:103-214 | for every packet, no precondition: the reply, or none; no access leaves the 300-byte buffer |
| `Dns.Reply` | libraries/dnsserver/dnsserver.c:203-214 | a reply never takes more than 287 bytes |
| `Dns.WalkLabels` | libraries/dnsserver/dnsserver.c:153-170 | the label loop ends where the walk over the name ends, also when the name runs out of the packet |
| `Dns.WalksName` | libraries/dnsserver/dnsserver.c:153-170 | the walk over an encoded name ends behind it, or past the packet if the name is cut off |
| `Dns.ReadsName` | libraries/dnsserver/dnsserver.c:184-185 | a reader with compression pointers gets an encoded name back |
| `Dns.WriteAnswer` | libraries/dnsserver/dnsserver.c:182-201 | the record written in place |
| `Dns.WriteHeader` | libraries/dnsserver/dnsserver.c:203-210 | flags and counts written in place |

## Left out

- Drivers: lwIP, Wi-Fi scan and connect, UART and SPI hardware, interrupts, sleeps, logging. What remains of them are FIFO queues and a clock value.
- Waiting for ACKs (`waiting_for_ack`, `got_nak`, timeouts): any forwarded transmit clears the flag, so stop-and-wait does not hold; sends in the model do not block.
- Forced updates (`TCP_FORCE_UPDATE_MESSAGE`, `update_network`): the constructor sets an id that `send_msg` refuses, so none is ever sent.
- Sending a disconnect with `send_msg`: its target is id 0 with length 0; the model does not send it. The disconnect handlers do nothing but acknowledge.
- `remove_children` and the destructor of the tree: they visit nodes they have freed. The head is never null in the model.
- Nodes leaving, reconnects, a fifth child, connection reuse: the network only grows.
- The `is_root` flag has no effect but on a flag that never wins; it is a free parameter of every node.
- `traverse` as a printer: its order is `LevelOrder.Level`, the text it prints is not modelled.
- MeshNodes.StaNode.SendData: the error result of the blocking send, which is about the ACK that is waited for; `SendMsg` the same.
- The mesh carries whole messages: what framing does to them is in `Framing`, which says that all messages of at most 123 bytes, and the routing fields of all others, survive every route.
- MeshNodes.StaNode.HandleIncomingData: requires an update to list at most four children, the room a message has; `HandleSerialMessage` the same.
- MeshNodes.ApNode.HandleIncomingData: requires the connection to be known, which its caller has checked (libraries/MeshNode/MeshNodeAP.cpp:168-173).
- Framing.Parse of a count larger than its field gives what the field holds; the source would read past the struct.
- Framing takes one header length between 4 and 142 per message, which all constructors set.
- DhcpServer.Server.Process: requires an END-terminated option list without pads, since `opt_find` takes a pad for an option, and the four bytes it reads of a requested address to lie in the buffer; and one clock value per packet, where the source reads the clock once per slot.
- DHCP and DNS sockets: a reply is the bytes handed to the socket.
- The receive interrupt of the UART that never returns on a full ring is a `false` result.
- libraries/RingBuffer, libraries/picoNodeVectorClass, libraries/DHT11, libraries/ThingSpeak, the SPI transport, KiCad files, examples.
