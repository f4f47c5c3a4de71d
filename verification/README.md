# Verified models of OSCam's protocols, codecs and tables

This project models the parts of OSCam whose guarantees span loops, calls and whole runs, and
proves them for all inputs. `dafny verify dfyconfig.toml` checks everything.

| file | what it models |
|---|---|
| `CcCrypt`, `CcKeyStream`, `CcChannel` | the keyed byte cipher of the CCcam protocol, its key stream, and the framed messages it carries |
| `CcHandshake` | the login: key agreement, password seal, account search, acknowledgement |
| `CcExchange`, `CcExchangeSafety` | requests and control word answers of one connection as a state machine, over whole runs |
| `ShareList`, `ShareListSafety` | the list of reported shares and what the clients know of it from their messages |
| `ServerList` | building that list: duplicates, hops, merged providers |
| `CardTable` | the reader's table of announced cards, its counters and requests under way |
| `CardCodec` | the binary form of a card, written and read |
| `RwLock` | the counter-only read/write lock, any number of threads, any interleaving |
| `LinkedList`, `Garbage` | the linked list with live iterators and the deferred-free queues |
| `Gbox` | the packet scrambler |
| `Pending` | the table of requests a network reader waits for |
| `PidSchedule`, `SortNanos` | which pid is tried next; sorting tag-length-value items |
| `Selection` | which readers a request goes to |
| `Alpha` | byte-stuffed serial frames |
| `Bytes`, `Sequences`, `Wrappers` | exclusive or by binary digits, picking elements by a mask, `Option` |

Code that changes state is modelled by classes and methods that change state, each proved to
compute a specification function of its old state; the properties are lemmas about those
functions. Time, received bytes, hash functions and configuration are parameters. History
that only the properties need (messages sent, events reported, tickets of requests) is kept in
fields of its own, which no branch looks at.

## What the code does differently from what one would expect

- An answer that comes after the reader dropped its request leaves the two sides out of step, and
  they stay so while both process equally many bytes: `CcExchangeSafety.InStepIffMatched`. Runs from
  every login lead there: `CcExchangeSafety.AnswerMeetsNoRequest`.
- A message larger than the receiver's buffer is refused but stays in the stream, and the next
  header is read from it: `CcChannel.MessageArrivesIff`, `CcChannel.RefusedIsReadNext`.
- The password check decrypts the same six bytes again for every account with the name, so a
  right account behind a wrong one is found only if that left the bytes alone:
  `CcHandshake.LaterAccountIff`. It need not: `CcHandshake.OneTryLeavesBuffer` and
  `CcHandshake.RightAccountMissed`.
- A share that changes its visibility while it is carried on is announced to no one:
  `ShareListSafety.UpdateSyncIff` and `ShareListSafety.VisibilityChangeMissed`.
- `cs_try_writelock` does not wait for readers: `RwLock.ReadersKeptOutIff`.
- An iterator whose predecessor is out of date spoils the list when it removes or moves its node:
  `LinkedList.CutRightIff` and `LinkedList.ToppedRightIff`, with the calls that lead there in
  `LinkedList.RemoveAfterPrepend` and `LinkedList.RemoveWithTwoIterators`.
- Nodes moved by `ll_iter_move_first` keep their flag. They cannot be removed any more, and
  `ll_clear` does not free them: `LinkedList.RemovesAllIffUnflagged`, `LinkedList.LList.Clear`.
- The two loops over a gbox packet stop at different places, so only packets that end in 0 come
  back: `Gbox.RoundTripIffLastZero`.
- A local reader that timed out still counts for the local quota but does not use it up, which
  can keep network readers and fallbacks from being asked at all: `Selection.LocalReadersDecide`.
- Positions of pids are stored in an `int8_t`. Which of them are still tried once more than 126 are
  given out depends on their low bytes, and with 127 to 255 none is: `PidSchedule.SortedPidsTriedIff`,
  `PidSchedule.OverrunGivesUp`, `PidSchedule.OverrunHappens`.

## Model

| member | source | states |
|---|---|---|
| `CcCrypt.CryptBlock.InitCrypt` | module-cccam.c:23-39 | the key schedule, in place, equals the specification `Init` on the whole block |
| `CcCrypt.CryptBlock.CryptInPlace` | module-cccam.c:41-58 | any stretch of a buffer becomes `Crypt` of it, the block moves on accordingly, no other byte changes |
| `CcCrypt.CryptBlock.Rc4InPlace` | module-cccam.c:60-76 | the same for the cipher without the state byte in its output |
| `CcCrypt.CryptAppend` | module-cccam.c:41-58 | a buffer may be processed in any two pieces: the same bytes, the same final block |
| `CcCrypt.ChunkingIrrelevant` | module-cccam.c:41-58 | the same for any list of pieces of any sizes |
| `CcCrypt.RoundTrip` | module-cccam.c:41-58 | from one and the same block each mode undoes the other, and both end on equal blocks |
| `CcCrypt.CryptInjective` | module-cccam.c:41-58 | for a fixed block distinct texts have distinct outputs |
| `CcCrypt.InitPermutes` | module-cccam.c:23-39 | after any number of key schedule rounds the table is a permutation of 0..255 |
| `CcCrypt.TableStaysPermutation` | module-cccam.c:23-58 | and it stays one whatever is processed afterwards |
| `CcCrypt.LengthKeepsStep` | module-cccam.c:41-58 | blocks that agree on table, counter and sum still do after any texts of equal length, in any modes |
| `CcCrypt.CounterCounts` | module-cccam.c:41-58 | the counter advances by the number of bytes, modulo 256 |
| `CcCrypt.StateHeals` | module-cccam.c:41-58 | decrypting with a wrong state byte spoils the first byte only, by exactly the difference of the two state bytes, and leaves the blocks equal |
| `CcCrypt.Rc4RoundTrip` | module-cccam.c:60-76 | the other cipher undoes itself from blocks in step, whatever the state bytes |
| `CcKeyStream.CryptIsKeyStream` | module-cccam.c:23-58 | from a fresh key the cipher is textbook RC4, with the first key byte and all text before combined into every byte by exclusive or |
| `CcKeyStream.Rc4IsKeyStream` | module-cccam.c:60-76 | from a fresh key the other cipher is textbook RC4 in either mode |
| `CcChannel.Channel.CmdSend` | module-cccam.c:525-563 | the bytes sent are the encrypted frame, or the encrypted buffer alone for MSG_NO_HEADER; only the sending block moves |
| `CcChannel.Channel.MsgRecv` | module-cccam.c:455-519 | header, size limit, body: result, bytes left unread, flag and block as in `Recv`, each early return included |
| `CcChannel.FrameArrives` | module-cccam.c:470-512 | over blocks in step a frame arrives with its command and payload, its flag off by the state difference; the blocks are equal afterwards |
| `CcChannel.MessageArrivesIff` | module-cccam.c:470-512 | over equal blocks a message is read back exactly if and only if its length is below 65536 and within the receiver's maximum |
| `CcChannel.RefusedIsReadNext` | module-cccam.c:487-494 | a payload refused for its size stays in the stream, and its first four bytes are the header the next call reads |
| `CcChannel.StreamRoundTrip` | module-cccam.c:470-555 | any sequence of messages that fit is read back as the same sequence, in front of whatever follows |
| `CcExchange.CwCrypt` | module-cccam.c:90-108 | the scrambling of the 16 control word bytes in place, with the node id shifted arithmetically and the card id |
| `CcExchange.ScrambledDigits` | module-cccam.c:90-108 | each binary digit of the scrambled words is that of the word, one of the signed 64-bit node id, one of the card id and the complement of odd bytes, combined by exclusive or |
| `CcExchange.Unscrambles` | module-cccam.c:90-108 | the same node and card id applied twice give the words back |
| `CcExchange.SendDcw` | module-cccam.c:2516-2527 | the found branch: scrambled words in a frame, then one more cipher run over the scrambled words |
| `CcExchange.ReadDcw` | module-cccam.c:2185-2193 | the reader unscrambles the words and runs its cipher once more over the unscrambled ones |
| `CcExchangeSafety.StepKeeps` | module-cccam.c:2175-2193 | every step of the connection keeps the two directions decodable and at most one request on its way, unless the reader takes an answer whose request it has dropped |
| `CcExchangeSafety.RunKeeps` | module-cccam.c:2516-2527 | so does every run from a login on in which each answer is matched to a card |
| `CcExchangeSafety.EverythingArrives` | module-cccam.c:2185-2193 | in such a run commands, payloads and control words arrive as sent and in order on both sides, everything under way can be read, and idle directions are in step |
| `CcExchangeSafety.InStepIffMatched` | module-cccam.c:2185-2193 | after an answer, and after any further bytes of which both sides process equally many, the reader's block is in step with the server's if and only if the answer was matched |
| `CcExchangeSafety.AnswerMeetsNoRequest` | module-cccam.c:392-404 | from every login a run leads to an answer that the reader takes without a request to match: ask, take, answer, and drop the request meanwhile |
| `CcHandshake.CcXor` | module-cccam.c:78-88 | the mixing of the 16 seed bytes with "CCcam", in place |
| `CcHandshake.Agree` | module-cccam.c:2677-2687 | hash, two key schedules and two cipher runs over each other's buffers, in that order |
| `CcHandshake.KeysMirror` | module-cccam.c:3009-3022 | for every seed and every hash function the server's sending block is the client's receiving block and vice versa, and both hold the same hash |
| `CcHandshake.SendHello` | module-cccam.c:3024-3038 | hash, username padded to 20 bytes, and "CCcam" sealed by running the cipher over the password first |
| `CcHandshake.FindAccount` | module-cccam.c:2726-2753 | the search over all accounts with the saved block, the buffer being decrypted again on every try |
| `CcHandshake.FoundAgrees` | module-cccam.c:2726-2753 | the account found agrees with the name sent on every one of the first 20 characters |
| `CcHandshake.DifferingIsSkipped` | module-cccam.c:2726-2753 | an account that differs on one of them is never found and leaves the buffer as it was |
| `CcHandshake.AgreeingIsTried` | module-cccam.c:2726-2753 | an account that agrees on all of them has the buffer decrypted with its password, as the tries before left it |
| `CcHandshake.MixedBytes` | module-cccam.c:78-88 | the bytes cc_xor makes of a seed, digit by digit and as multiples of the index |
| `CcHandshake.AcceptClient` | module-cccam.c:2688-2788 | the server's side from the hash to the acknowledgement: illegal usernames, failed searches, accounts that may not log in, and both blocks afterwards in every case |
| `CcHandshake.NameArrives` | module-cccam.c:2696-2711 | the name the server reads is the first 20 characters of the one the client has |
| `CcHandshake.TryOpensSeal` | module-cccam.c:2745-2750 | a try succeeds on exactly the six bytes sealed with that account's password |
| `CcHandshake.SearchIff` | module-cccam.c:2726-2753 | the account found is the first with a matching name whose seal is what the tries before it left of the client's bytes |
| `CcHandshake.LaterAccountIff` | module-cccam.c:2726-2753 | a right account behind failed tries on the same name is found if and only if those tries left the buffer as it was |
| `CcHandshake.OneTryLeavesBuffer` | module-cccam.c:2745-2750 | of all wrong passwords of one character, at most one leaves the buffer as it was, whatever the block |
| `CcHandshake.RightAccountMissed` | module-cccam.c:2726-2753 | so for every block, name and password there is a wrong password such that an account with it, listed first, makes the server miss the right one |
| `CcHandshake.LoginSucceeds` | module-cccam.c:2665-2788 | when the right account is the first that agrees with the client's name on all of the first 20 characters, the server accepts it unless it may not log in, the client accepts the acknowledgement, and the blocks are mirrored again |
| `ShareList.SameCardIffClass` | module-cccam.c:985-1007 | same_card is an equivalence: it holds if and only if the two cards have the same class |
| `ShareList.ShareList.FindReportedCard` | module-cccshare.c:772-789 | the first same card that has not timed out leaves the list and hands on its id and timeout |
| `ShareList.ShareList.SendCardToClients` | module-cccshare.c:219-265 | every client that may see the card is told its id and its own reshare of it; a card without an id takes the next one when the first such client is met |
| `ShareList.ShareList.SendRemoveCardToClients` | module-cccshare.c:270-289 | every client the card is valid for is told that its id is gone, and nobody when it never had one |
| `ShareList.ShareList.UpdateCardList` | module-cccshare.c:1074-1099 | match the offers against the reported cards, remove what is left over, then announce what is new |
| `ShareList.ShareList.ReportCards` | module-cccshare.c:1108-1122 | a client that logs in is told all reported cards it may see |
| `ShareListSafety.UpdateSyncIff` | module-cccshare.c:1074-1099 | after an update every client knows exactly the cards it may see if and only if no card carried on changes its visibility to a connected client; ids stay distinct and below the next one |
| `ShareListSafety.ConnectSync` | module-cccshare.c:1108-1122 | a login keeps all clients in sync, the new one included |
| `ShareListSafety.DisconnectSync` | module-cccshare.c:219-289 | a logout keeps the others in sync |
| `ShareListSafety.ClientsTrackShares` | module-cccshare.c:333-360 | in every state of every run with steady visibility each client knows from its messages exactly the ids of the reported cards it may see |
| `ShareListSafety.IdsKeepTheirClass` | module-cccshare.c:219-265 | over a whole run an id never stands for cards of two classes |
| `ShareListSafety.OfferedShareKeepsId` | module-cccshare.c:772-814 | in an update the first offered card of a class carries on the id and timeout of the first reported one of that class that has not timed out |
| `ShareListSafety.StayingShareKeepsId` | module-cccshare.c:756-814 | over any stretch of a run, logins and logouts included, a share that every refresh offers and that has not timed out at any keeps its id |
| `ShareListSafety.RemoteShareKeepsId` | module-cccshare.c:756-814 | over any stretch of a run, a class whose card has card type 10 keeps its id while every refresh offers it, whatever the clock |
| `ShareListSafety.ShareCarriedIff` | module-cccshare.c:756-789 | of a class with one reported card, the first card offered takes the id if and only if the card type is 10 or the stored timeout is not below the clock |
| `ShareListSafety.LateShareIsNew` | module-cccshare.c:756-814 | an offered card that none still in time stands for gets a new id, or none |
| `ShareListSafety.ClientsTold` | module-cccshare.c:219-289 | which message with which id and reshare each client gets when a card is new, gone, or reported to a new client |
| `ShareListSafety.VisibilityChangeMissed` | module-cccshare.c:772-814 | an example in which the condition of UpdateSyncIff fails: a card carried on with a smaller hop becomes visible to a client that is never told |
| `ServerList.ServerCards.AddCard` | module-cccshare.c:639-750 | the new list and the result in each of the three modes, the place of a replaced card included |
| `ServerList.NumSameProviders` | module-cccshare.c:583-604 | counts the providers of one card that the other has, by the nested search |
| `ServerList.SameProviders` | module-cccshare.c:610-634 | equal length and every provider found in the other card |
| `ServerList.MergeLists` | module-cccshare.c:486-531 | appends, in order, what the destination lacks; modified exactly when it grew |
| `ServerList.EqualProvidersIff` | module-cccshare.c:610-634 | on duplicate-free lists the comparison is equality of the provider sets |
| `ServerList.MergeLength` | module-cccshare.c:649-656 | a merged card has at most as many providers as the code computes beforehand, and exactly as many when the offered list has no duplicates |
| `ServerList.OneCardPerClass` | module-cccshare.c:683-745 | without provider merging: exactly one card per class offered, with the least hop offered, and each card is one of those offered; where providers are compared, for offers that do not repeat any |
| `ServerList.OrderIrrelevant` | module-cccshare.c:683-745 | so classes and hops depend neither on the order nor on the repetition of the offers |
| `ServerList.MergingLosesNothing` | module-cccshare.c:644-681 | with provider merging: for every group the providers listed are exactly those offered, every group offered is listed, and no card exceeds 32 providers unless an offered one did |
| `ServerList.ModifiedIff` | module-cccshare.c:639-750 | the result says exactly whether the list changed; in the mode that merges providers, whether it grew |
| `ServerList.CaidMatchIff` | module-cccshare.c:644-681 | in the mode that merges providers, a card matches one of its group if and only if they have at most 32 providers between them |
| `ServerList.AnotherCardIff` | module-cccshare.c:639-750 | there, an offer adds a card to its group if and only if with it every card of the group would have more than 32 providers, and to other groups never |
| `ServerList.OneCardIfFew` | module-cccshare.c:639-750 | there, a group offered with at most 32 providers in all has exactly one card |
| `ServerList.OneCardIff` | module-cccshare.c:639-750 | there, with at most 32 providers in each card offered, exactly the groups with at most 32 providers in all have one card |
| `CardTable.CcData.NewCard` | module-cccam.c:1919-1951 | a card is added, with its hop incremented and counted, unless its id or a same card is there |
| `CardTable.CcData.Remove` | module-cccam.c:1664-1698 | all cards with the id go, with their counters, pending requests and management card |
| `CardTable.CcData.MoveToEnd` | module-cccam.c:1700-1717 | the card goes to the end and its pending requests are forgotten |
| `CardTable.CcData.FreeByCard` | module-cccam.c:392-404 | all pending requests for the card go, the others keep their order |
| `CardTable.CcData.SendEcm` | module-cccam.c:1190-1210 | the entry of the send index is set or added |
| `CardTable.CcData.Answer` | module-cccam.c:2011-2037 | the entry of the send index goes; the verdict removes its card, moves it to the end or leaves it |
| `CardTable.TableStaysSound` | module-cccam.c:1664-1717 | after any sequence of server messages and requests since a login: distinct ids, no two same cards, counters tallied, pending requests and the management card inside the table, each send index at most once |
| `CardTable.CountersAreCounts` | module-cccam.c:1939-1946 | the tally that is kept is the number of matching cards for each counter |
| `CardTable.RemovedTakesOnlyThatId` | module-cccam.c:1664-1698 | removal leaves exactly the cards with other ids, in order |
| `CardTable.CardEntersIff` | module-cccam.c:1919-1951 | a card enters the table, last and with one hop more, if and only if none there has its id or its class |
| `CardTable.RequestIsNoted` | module-cccam.c:1181-1210 | a request leaves one entry with its send index for its card, and all other entries stay |
| `CardTable.AnswerIsDone` | module-cccam.c:2011-2037 | an answer takes its entry away, and its card by the verdict: left, removed with its id, or moved to the end |
| `CardCodec.WriteCard` | module-cccshare.c:98-216 | the buffer holds the layout of the card as the receiver should see it (secrets only if AU is allowed, service ids from the card's lists or tables cut at 200 or 240, own node last), then zeros; the offset is its length |
| `CardCodec.ReadCard` | module-cccam.c:1581-1662 | the card the counts in the buffer lead to |
| `CardCodec.PutRejected` | module-cccshare.c:147-172 | the nested loops over the configured tables write the first 240 service ids of the selected tables that list the caid |
| `CardCodec.LayoutParts` | module-cccshare.c:98-216 | the layout has the size announced, and each part is where its counts say |
| `CardCodec.ReadUndoesWrite` | module-cccam.c:1581-1662 | reading what was written, whatever follows it, gives the same ids, caid, hop, order of providers, service ids and nodes; provider ids are cut to 24 bits and FFFFFF on caid 17xx becomes the position |
| `CardCodec.ProvidersSurviveIff` | module-cccam.c:1615-1625 | nothing is altered if and only if all provider ids have 24 bits and none is FFFFFF on a caid 17xx |
| `CardCodec.CardSurvivesIff` | module-cccshare.c:98-216 | the card itself comes back if and only if moreover no own node is appended, its secrets are sent or empty, and its service ids are those sent |
| `RwLock.CsMutexLock.Advance` | oscam-simples.c:1054-1200 | one atomic access of one thread in any of the six lock functions |
| `RwLock.CsMutexLock.Interleave` | oscam-simples.c:1054-1200 | any schedule of such accesses, with exclusion in the state reached |
| `RwLock.StepKeeps` | oscam-simples.c:1054-1200 | every access keeps the counters equal to the number of threads between increment and decrement, and a writer past its check alone |
| `RwLock.AlwaysExclusive` | oscam-simples.c:1054-1200 | for any number of threads and any interleaving at most one writer of either kind holds, no reader holds while a cs_writelock holder does, and an unused lock is back at zero |
| `RwLock.ReadersKeptOutIff` | oscam-simples.c:1167-1200 | with two threads or more no reader ever holds the lock beside a writer if and only if cs_try_writelock is not used together with either way to read |
| `RwLock.TryWriteJoinsReader` | oscam-simples.c:1187-1200 | for either way to read, the interleaving in which cs_try_writelock gets the lock beside a reader |
| `RwLock.IdleLockIsGot` | oscam-simples.c:1054-1200 | from any reachable state in which no thread uses the lock, five accesses of cs_writelock or four of another call get it, and the unlock brings both counters back to 0 |
| `RwLock.WaitingWriterGetsItIff` | oscam-simples.c:1077-1095 | a writer that waits for readers gets the lock with its next access if and only if no reader is inside |
| `RwLock.TestsMean` | oscam-simples.c:1054-1200 | what each test of a counter says of where the other threads are, and where the call goes on |
| `LinkedList.LList.Append` | module-datastruct-llist.c:115-146 | the node goes last; `count`, `initial`, `last` and the chain stay consistent; NULL is refused |
| `LinkedList.LList.Prepend` | module-datastruct-llist.c:147-167 | the same at the front |
| `LinkedList.LList.Next` | module-datastruct-llist.c:66-80 | where any iterator gets to; from a node of the list it gets to the next one with the right predecessor, whatever predecessor it had |
| `LinkedList.LList.Insert` | module-datastruct-llist.c:236-254 | for any iterator: behind its node, or last when it has none or its node leads nowhere; the list stays right unless that node was removed and still has a successor |
| `LinkedList.LList.Remove` | module-datastruct-llist.c:256-287 | for any iterator: a flagged node stays and is not handed over again; otherwise all pointers afterwards, the node goes to the garbage, and the list is right if and only if the iterator's predecessor is the node's, to which it then steps back |
| `LinkedList.LList.MoveFirst` | module-datastruct-llist.c:289-315 | for any iterator: an unflagged node moves to the front and stays flagged, which leaves the list right if and only if the iterator's predecessor is the node's |
| `LinkedList.LList.HandedOnce` | module-datastruct-llist.c:256-287 | a node is handed to add_garbage at most once before its flag has gone round, after 256 increments |
| `LinkedList.CutRightIff` | module-datastruct-llist.c:264-276 | after the pointer changes of ll_iter_remove on a node of the list, `count`, `last` and the chain are right if and only if the predecessor is the node's |
| `LinkedList.ToppedRightIff` | module-datastruct-llist.c:297-307 | the same for ll_iter_move_first |
| `LinkedList.InsertedRightIff` | module-datastruct-llist.c:243-251 | a node put behind another that has a successor leaves the list right if and only if that one is in it |
| `LinkedList.RemoveAfterPrepend` | module-datastruct-llist.c:256-287 | an iterator on the first node, a node put in front, a removal: the list is empty and counts one |
| `LinkedList.RemoveWithTwoIterators` | module-datastruct-llist.c:256-287 | two iterators on one node: removing it twice is harmless, but the next node the second one removes is handed over and still linked |
| `LinkedList.LList.Clear` | module-datastruct-llist.c:82-108 | the list is empty, and exactly the nodes that were not flagged went to the garbage |
| `LinkedList.LList.Sweep` | module-datastruct-llist.c:256-287 | a traversal that removes any nodes it chooses visits each original node once, in order, and leaves exactly the others |
| `LinkedList.LList.RemoveObj` | module-datastruct-llist.c:362-374 | the list without the unflagged nodes holding the object, and the number of all that hold it |
| `LinkedList.LList.RemoveAll` | module-datastruct-llist.c:387-406 | the order-preserving difference of two lists, up to flagged nodes |
| `LinkedList.RemovesAllIffUnflagged` | module-datastruct-llist.c:289-315 | no unwanted object is left if and only if no node holding one was flagged before |
| `Garbage.Queue.Add` | oscam-garbage.c:31-67 | a pointer already queued is refused, any other goes first with the time |
| `Garbage.Queue.Sweep` | oscam-garbage.c:74-98 | exactly the entries older than five seconds are freed and unlinked, the others keep their order |
| `Garbage.CollectorConserves` | oscam-garbage.c:31-100 | over any run of additions and sweeps: no pointer queued twice, nothing freed early, accepted additions are those queued and those freed, each once |
| `Garbage.SweptIff` | oscam-garbage.c:74-98 | a sweep frees exactly what was queued more than five seconds before |
| `Garbage.AcceptedIff` | oscam-garbage.c:31-67 | after any run an addition is accepted if and only if the pointer is not NULL and in no bucket, and then it is first in its bucket |
| `Gbox.EncryptStage1` | module-gbox.c:85-102 | 32 rounds on an 8-byte window in place, the key rotated right by a bit before each |
| `Gbox.EncryptStage2` | module-gbox.c:104-122 | the second stage, four times through the window from its end |
| `Gbox.DecryptStage1` | module-gbox.c:124-141 | the inverse rounds in the opposite order, the key rotated left |
| `Gbox.DecryptStage2` | module-gbox.c:143-161 | the same for the second stage |
| `Gbox.Encrypt` | module-gbox.c:163-177 | the stages on the head and tail windows and the chain over the packet, in place |
| `Gbox.Decrypt` | module-gbox.c:179-194 | the other direction |
| `Gbox.DecryptingEncrypting` | module-gbox.c:85-161 | any number of rounds of a stage is undone by as many of its opposite, the key included |
| `Gbox.EncryptingDecrypting` | module-gbox.c:85-161 | and the other way round |
| `Gbox.KeyReturns` | module-gbox.c:85-161 | a stage leaves every key as it found it |
| `Gbox.ChainsCompose` | module-gbox.c:163-194 | the two chains together combine every byte but the last with the last byte |
| `Gbox.DecryptedEncrypted` | module-gbox.c:163-194 | what decryption makes of any encrypted packet, overlapping windows included |
| `Gbox.RoundTripIffLastZero` | module-gbox.c:784-816 | decryption gives a packet back if and only if its last byte is 0, as that of the 45-byte control word answer is |
| `Gbox.StageOneRound` | module-gbox.c:85-102 | the byte that a round of stage one makes, from the table, its left neighbour and the key |
| `Gbox.StageTwoRound` | module-gbox.c:104-122 | the byte that a round of stage two makes |
| `Gbox.PlaceIsMasked` | module-gbox.c:93-95 | only the low six bits of a place in the table count |
| `Gbox.KeyIsRotated` | module-gbox.c:85-102 | the key is rotated as one 32-bit number |
| `Gbox.BetweenWindows` | module-gbox.c:163-177 | between the windows of an encrypted packet each byte is combined with its right neighbour alone, and the last byte stays |
| `Pending.Client.CheckDcwCall` | oscam-reader.c:79-118 | every slot after the call, every answer and timeout reported, and the number still waiting |
| `Pending.Client.DoSock` | oscam-reader.c:354-371 | the first slot with the index received (the last one sent for index 0) is answered, or nothing happens |
| `Pending.Client.CloseConnection` | oscam-reader.c:284-289 | all slots are cleared |
| `Pending.Client.ProcessEcm` | oscam-reader.c:398-470 | drop late requests, take the first free slot or report an overflow, number it, and send it unless an equal one waits |
| `Pending.AnswerReachesEqualOnly` | oscam-reader.c:88-111 | an answer reaches exactly the waiting requests with the caid and digest of the slot it names; the only others it ends are late |
| `Pending.NewRequest` | oscam-reader.c:411-436 | it is refused if and only if every slot is live, and not sent if and only if an equal live one has its level at least |
| `Pending.ScanTimesOutIff` | oscam-reader.c:407-420 | a scan times out exactly the requests that wait with a code of 10 at least and were sent more than the given seconds ago |
| `Pending.RequestTakesSlot` | oscam-reader.c:411-447 | an accepted request takes a slot no live request holds and changes no live one, while the connection holds and sending works |
| `Pending.ClosingClears` | oscam-reader.c:451-464 | a connection closed before sending leaves no request waiting |
| `Pending.AnswerReachesItsRequestIff` | oscam-reader.c:359-371 | in any table an answer with the number of a waiting request names its slot if and only if no earlier slot carries the number, and reaches it if and only if the first slot that does has its caid and digest |
| `Pending.AnswerFindsItsRequest` | oscam-reader.c:359-371 | while the running numbers have not started again, an answer with the number of a waiting request goes to that request and its equals |
| `Pending.StepConserves` | oscam-reader.c:398-477 | every step keeps each accepted request in exactly one place |
| `Pending.RunConserves` | oscam-reader.c:79-477 | after any run each accepted request was answered, timed out or dropped exactly once or waits in exactly one slot |
| `PidSchedule.Channel.Search` | module-dvbapi.c:945-962 | the two runs of the search find the open pid that comes before all other open ones |
| `PidSchedule.Channel.TryNextCaid` | module-dvbapi.c:936-1024 | one call, with its recursion: the pids tried, the state after it, and whether it gave up |
| `PidSchedule.Channel.Resort` | module-dvbapi.c:829-886 | every status is the pid's rank (nothing, ignored, or the number of its position) and max_status the number to give out next, both as an int8_t stores them |
| `PidSchedule.FileDecides` | module-dvbapi.c:838-861 | a line is about a pid when each of its numbers is 0 or the pid's; the file says nothing of a pid without such a line, and ignores one exactly if an ignoring line without chid comes before all preferring ones |
| `PidSchedule.IgnoredIff` | module-dvbapi.c:829-886 | sorting ignores a pid if and only if the last table naming it ignores and does not prefer it, or none names it and the file ignores it |
| `PidSchedule.LastPreferenceCounts` | module-dvbapi.c:864-882 | a pid that the last table naming it prefers gets the last number its tables give out; one that no table names keeps what the file says |
| `PidSchedule.NextCounts` | module-dvbapi.c:846-882 | that number is one more than the pids preferred by the file and all preferences of the tables together |
| `PidSchedule.FileOrder` | module-dvbapi.c:838-860 | by the file alone positions follow its lines, and pids of one line their index |
| `PidSchedule.PositionsDistinct` | module-dvbapi.c:838-882 | no two pids hold the same position |
| `PidSchedule.SortedPidsTriedIff` | module-dvbapi.c:884-962 | after sorting, all pids that are not ignored are eligible if and only if every position held has low byte 0 or one not above that of the next number, itself at most 127; always so up to 127, and for next numbers 128 to 256 only if no pid holds a position |
| `PidSchedule.StatusesDistinctIff` | module-dvbapi.c:854-877 | two positions are stored alike if and only if they are 256 or a multiple apart, which takes a next number above 257 |
| `PidSchedule.OverrunGivesUp` | module-dvbapi.c:862-884 | tables that prefer every pid and give out 127 to 255 positions leave no pid to try: the channel is given up at once |
| `PidSchedule.OverrunHappens` | module-dvbapi.c:862-884 | four pids and 32 tables are such an input |
| `PidSchedule.RestInOrder` | module-dvbapi.c:945-962 | the rest of a round has every open pid exactly once, positive statuses ascending and then status 0 by index |
| `PidSchedule.TryTakesNext` | module-dvbapi.c:936-1024 | a call tries the next pid of the three rounds or gives up when they are through |
| `PidSchedule.ThreeRounds` | module-dvbapi.c:936-1024 | from a fresh channel on, consecutive attempts go through the eligible pids in their order exactly three times, then give up for good |
| `PidSchedule.ModeOneTriesAll` | module-dvbapi.c:936-1024 | request mode 1 tries everything left at once and never counts a round |
| `SortNanos.DvbapiSortNanos` | module-dvbapi.c:281-303 | the items in stable order by tag when they tile the length exactly, zeros when the last one runs past it; the rest of dest is untouched |
| `SortNanos.Sweep` | module-dvbapi.c:284-300 | one pass: copies the items of one tag behind those before and finds the next tag, or zeroes |
| `SortNanos.SortedIsStableSort` | module-dvbapi.c:281-303 | the order written is a permutation of the items, ascending by tag, that keeps the items of each tag in their order |
| `SortNanos.ItemsTile` | module-dvbapi.c:286-298 | the items one after the other are the input, and reach its length |
| `Selection.GetBestReader` | module-stat.c:786-939 | the readers returned up to the end of the selection loop and the place of the first fallback, with all quotas and resets of statistics |
| `Selection.FallbacksAreLast` | module-stat.c:927-934 | the fallbacks are exactly the readers from that place on |
| `Selection.SelectReaders` | module-stat.c:889-937 | the selection loop, setting values to 0 in place |
| `Selection.SmallerMeasureIsBetter` | module-stat.c:839-870 | of two readers alike in weight and load the one with the smaller response time, age or usage has no larger value |
| `Selection.LoadNeverHelps` | module-stat.c:860-870 | being unavailable or having requests pending never lowers a value, and a larger weight never raises it |
| `Selection.NoneTwice` | module-stat.c:889-908 | no candidate is picked twice |
| `Selection.PhasesInOrder` | module-stat.c:910-937 | local readers first and only local ones then, next the other primary ones, next the fallbacks |
| `Selection.BestFirst` | module-stat.c:893-899 | each pick is no worse than any later one of its kind and any candidate of its kind left over |
| `Selection.WithinQuota` | module-stat.c:910-937 | no quota is overdrawn, readers that timed out not counting |
| `Selection.LocalQuotaDecides` | module-stat.c:889-937 | if the live local candidates meet the local quota, all candidates or all quotas or the limit on readers are used up; otherwise no reader but local ones is picked, all of them unless the limit comes first |
| `Selection.EachReaderOnce` | module-stat.c:786-937 | the whole result names each matching reader at most once and no other |
| `Selection.LocalReadersDecide` | module-stat.c:874-937 | with local readers preferred, others are considered only if no local reader timed out or enough local ones did not |
| `Selection.EntersIff` | module-stat.c:786-868 | which readers are asked at once and which become candidates, exactly, by their statistics when their turn comes, and with which value |
| `Selection.UnknownIsAsked` | module-stat.c:786-802 | a reader without statistics is asked while there is room, and none after that |
| `Selection.ValueIs` | module-stat.c:833-866 | a candidate's value: measure per weight, doubled if not available, times what its client waits for, and 1 at least |
| `Alpha.AlphaConvert` | module-serial.c:103-131 | either direction of the conversion, in place with its moves |
| `Alpha.SendEcm` | module-serial.c:1062-1068 | the frame sent for a request |
| `Alpha.CheckEcm` | module-serial.c:748-822 | the request read from a frame, or the refusal |
| `Alpha.Recv` | module-serial.c:519-524 | the bytes taken off the line: three, then all up to the first 0x7F |
| `Alpha.ConvertTwice` | module-serial.c:103-131 | every buffer that does not start with 0x7E comes back |
| `Alpha.FrameShape` | module-serial.c:103-131 | a frame has 0x7E in front and nowhere else and 0x7F at the end and nowhere else |
| `Alpha.FrameReceived` | module-serial.c:519-524 | the receiving loop takes exactly one frame, whatever follows |
| `Alpha.RequestArrivesIff` | module-serial.c:812-822 | the server gets the request as sent if and only if its frame has 16 bytes (9 bytes of ECM are enough) and the ECM at most 257, and refuses it otherwise |
| `Alpha.RequestsArrive` | module-serial.c:519-524 | requests sent one after the other arrive one by one |

## Left out

- SHA-1 is any function from the seed to 20 bytes; MD5 digests are any sequences.
- Why an account may log in (cs_auth_client, duplicate logins, disabled accounts, the hop limit) is any predicate over accounts; the server data messages after the acknowledgement.
- Extended mode of the CCcam connection, where no scrambling takes place and the flag byte carries the send index; only its index table is in CardTable.
- The commands 05, 0B, 0C and 0D and their ciphers.
- EMM traffic does not take the ecm_busy lock in the exchange model, and control word payloads of other lengths than 16, which no OSCam server sends, end the reader's run there.
- CcExchangeSafety.StepKeeps: excludes the step in which an answer meets no request, because the connection does not survive it, as CcExchangeSafety.InStepIffMatched shows.
- ShareListSafety.IdsKeepTheirClass: share ids do not wrap at 32 bits.
- Visibility rules (groups, idents, services, hops) and the reshare of a card are any two functions of account and card; the model does not say which cards card_valid_for_client admits.
- The collection of offered cards from readers and accounts in update_card_list before its tail, and service ids (good, bad, tables) of the cards in ShareList and ServerList.
- ServerList.ServerCards.AddCard: does not clear the bad service ids of a card that is merged; service ids are not part of these cards.
- ServerList.OneCardPerClass: in the mode that compares providers, for offers whose provider lists have no duplicates.
- ServerList.OrderIrrelevant: for the same offers.
- ServerList.ModifiedIff: for the same offers, and lists built from them.
- The choice of the card for a request in cc_send_ecm, sid blocks, cc_reset_pending and set_au_data beyond the pointer it sets.
- CardCodec.WriteCard: for cards that fit the 1024-byte buffer; the code does not look.
- CardCodec.ReadCard: for buffers that hold all their counts announce; the code does not look.
- RwLock.CsMutexLock.Advance: without the lock timeouts, whose branches reset the counters and give up exclusion by design.
- ll_lock failing on a destroyed list, ll_sort, ll_iter_move, ll_iter_peek, and memory that the collector has freed.
- LinkedList.LList.Remove: on a list that is not right any more its walk back need not end, so calls on such a list are not modelled; nor, as calls, ll_iter_next, ll_iter_insert, ll_iter_move_first and ll_clear on it.
- Garbage: the inactive and debug modes, which free at once, and stopping the collector.
- Gbox.RoundTripIffLastZero: for packets of 9 bytes and more; shorter ones have no second window.
- gbox compression, checksums and the messages themselves.
- Pending.AnswerFindsItsRequest: for readers other than Newcamd, whose numbers come from its message counter, and before the numbers start again at 1.
- casc_get_dcw's wait is a sequence of arrivals and a final step that gives up; the monitoring log of casc_do_sock_log is not modelled.
- Irdeto chids, the fake request for BISS, starting and stopping of filters and descrambling, and force entries in the pid schedule.
- chk_srvid_match: an entry of the service table is any set of pids it ignores and any it prefers.
- SortNanos.DvbapiSortNanos: for inputs whose last item is readable as a whole, as is the memory the code reads.
- 32-bit overflow of reader values.
- The reopening of readers after the selection loop, the beta tunnel decision before it, add_stat, and the times kept for the mode that takes the oldest reader (its value is a parameter).
- Alpha.AlphaConvert: for buffers large enough for the memory moves, which reach beyond the bytes in use.
- Alpha.CheckEcm: for such buffers, too.
- Alpha.SendEcm: for such buffers and lengths that fit the 16-bit field.
- The other serial protocols, and serial buffers that fill up before the end of a frame.
- Web interface, logging, configuration, statistics files, card reader hardware.
