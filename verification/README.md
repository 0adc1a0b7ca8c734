# Verified model of the chat room and its FTP client

This project models three parts of the repository in Dafny and proves what they promise.

- **The FTP engine** (`freec++/public/ftplib.c`). `Wire` is the operating system's socket: an arbitrary
  finite plan decides how `read` cuts the incoming stream, how much each `write` accepts, and which calls
  are interrupted or fail. `NetBuf` holds the connection record with `readline` and `writeline`, proved
  against the pure codec in `LineCodec`; `Serving` says what a plan and the answers of the idle callback do
  to one write and to one call of the reader. `Replies` adds `readresp`. `Commands` holds the command texts and
  `HostPort` the PORT/PASV text; `Requests` is the control connection as a server hears it, from the octets
  alone: cut into lines, each read as a request of RFC 959, and what requests do to the server's files.
  `FtpServer` is an arbitrary server that answers every line, and `Session` the command/reply state machine
  against it.
  `Completeness` says what a transfer leaves behind as a function of all that serves its data connection, and
  exactly when it is complete; `DataTransfer` holds the data loops, proved to do just that, and
  `FileTransfer` whole transfers, which need both connections.
- **The chat server.** `LinkList` is the global list of online users as a heap list behind a sentinel,
  refined to the sequences of `Roster`. `ChatSpec` is one function for all handlers, `ChatServer` and
  `ChatClient` the imperative handlers proved to do what it says. `ChatWorld` is the system over whole
  runs, with clients and messages in flight; `ChatIdentity` says when the registry names exactly the live
  sessions, and `ChatHandshake` when messages reach only the users they name. `ChatLaws` has what each event
  does in terms of sockets, tables and names alone.
- **File chunking and the job queue.** `FileRelay` is the sender, the relay's filter and the receiver
  with its packet counter. `JobQueue` is the bounded queue, stepped statement by statement by any number
  of producers and workers. `Chunking`, `Bytes` and `Wrappers` are shared.

Where the code does not do what it is for, the code is kept and the exact condition is proved:

- The control connection falls out of step in exactly three ways (`Session.Control.Run`,
  `Session.Control.XferDerailsIff`). A string of the caller's breaks a line: a user name, password, path or
  file name with CR LF in it, or with LF for a server that takes a lone LF (then the mode octet, too); the
  server sees several commands and answers them all (`Commands.OneOrTwoCommands`,
  `Session.Control.InjectedLineDerails`). A path of exactly 1017 octets passes the guard of `FtpAccess` but
  not that of `FtpSendCmd`, after which `FtpClose` waits for a reply to a command that was never sent. And
  so it does after a PORT transfer whose success is reported while the client still waits for the data
  connection. Only one reply too many and one too few make up for each other. The 110 reply that section 5.4
  of RFC 959 allows before the final one cannot come: it marks restarts, which need block or compressed
  mode, and this client leaves the mode at stream.
- `FtpXfer` reports success whatever the final reply says, and a download even when a failed read, a
  stopped wait or a refusing callback has ended it early. `FileTransfer.FtpXfer` says exactly when it reports
  success and what has been transferred then. An upload is complete iff the callback grants every flush and
  the system accepts every block whole (`Completeness.UploadCompleteIff`); a download iff the stream is read
  out before a read fails, the waits for it are granted and the progress reports agreed to
  (`Completeness.DownloadCompleteIff`). An ASCII download survives a refused wait within a line, but not one
  between CR and LF, which tears the file (`Completeness.FrontIff`, `Completeness.ATornFile`); and a text that
  does not end with a line's end needs one more read that does not fail
  (`Completeness.UnaskedDownloadCompleteIff`). `FileTransfer.StoppedDownload` is a case.
- `writeline` forgets the previous octet between calls, so a CR LF pair across two upload blocks costs an
  extra CR on the wire (`LineCodec.SeamLaw`), and a file survives an upload and a download exactly when no
  block contains a CR LF pair (`LineCodec.UploadRoundTrip`).
- When the idle callback grants all flushes but the last, `writeline` still returns the full length
  (`NetBuf.NetBuf.WriteLine` has the exact condition, `NetBuf.StoppedWriteReportsAll` the case).
- `delNode` removes the first node of a name. When of several sessions of one user another one leaves
  than searchName would find, a stale entry stays (`ChatIdentity.AlwaysExactIff`). Then a message to a user
  who is online can be lost (`ChatWorld.AMessageIsLost`), a friend request is taken by the wrong user
  (`ChatHandshake.AForeignRequestIsAccepted`), and an answer is answered for ever
  (`ChatHandshake.ExchangeNeverEnds`). `ChatWorld.AstrayIsStrayCount`, `ChatHandshake.AlwaysTableConsentIff` and
  `ChatHandshake.AlwaysFlightOkIff` say exactly over which runs this happens.
- A file packet that reads as "exit" is dropped by the server, and the receiver's counter is then wrong
  for the next file (`FileRelay.CounterAfterFile`, `FileRelay.FileRoundTrip`).
- The producer of `threadPool.c` counts before it tests and tests a copy that never changes: the request
  that finds 100 waits for good and all later ones go past it (`JobQueue.ProduceAsWritten`). The monitor in
  `JobQueue.Monitor` tests the live counter.

The comment on `FtpOpenPort` says that it returns 0 on failure; the code returns -1 and the model follows
the code.

## Model

| member | source | states |
|---|---|---|
| Wire.Socket.NetRead | freec++/public/ftplib.c:105-120 | after any number of interrupted calls the buffer holds the next octets of the stream, as many as the plan says; 0 means its end; -1 only if the system failed |
| Wire.Socket.NetWrite | freec++/public/ftplib.c:122-145 | for every schedule of short writes and retries the octets accepted are a prefix of the range, a result other than -1 is its length, and it is the full length iff all was sent |
| NetBuf.NetBuf.TakeBuffered | freec++/public/ftplib.c:245-257 | takes exactly the first line of what is buffered, or all of it, and never writes past the caller's buffer when the line fits |
| NetBuf.NetBuf.StripInPlace | freec++/public/ftplib.c:257-266 | a final CR LF becomes LF and the result stays NUL-terminated |
| NetBuf.NetBuf.CollectLine | freec++/public/ftplib.c:243-302 | the loop delivers the first line of the pending stream, stripped, and leaves the rest pending, however the reads cut it |
| NetBuf.NetBuf.ReadLine | freec++/public/ftplib.c:233-303 | each way a call can end: line, end of stream, failure, callback stop, wrong direction, with what is in the buffer and what is still pending; which one it is, how much it takes and what serves the next call follow from the plan and the callback's answers |
| NetBuf.ReadEveryLine | freec++/public/ftplib.c:233-303 | repeated calls return exactly the lines of the stream and then -1, for every chunking |
| LineCodec.LinesAreDecode | freec++/public/ftplib.c:248-266 | the lines concatenated are the stream without each CR that is directly followed by LF |
| LineCodec.DecodeLength | freec++/public/ftplib.c:260-264 | decoding loses exactly one octet per CR LF pair |
| NetBuf.NetBuf.WriteLine | freec++/public/ftplib.c:310-367 | of the blocks of the encoding exactly those before the callback's first refusal are sent; it is the whole encoding iff none of them is refused, and len is returned iff none or only the last is; a failed write leaves a proper prefix sent; which one it is follows from the plan and the callback's answers |
| Serving.GrantedIsFirstRefusal | freec++/public/ftplib.c:203-225 | the number of granted waits is the position of the first refusal, if that comes early enough |
| Serving.EverythingIff | freec++/public/ftplib.c:339-365 | the flushes of a write all get out iff the callback grants each and the system accepts each block whole |
| NetBuf.StoppedWriteReportsAll | freec++/public/ftplib.c:354-366 | a write whose only flush is refused returns the full length with nothing sent |
| NetBuf.NetBuf.FlushRest | freec++/public/ftplib.c:354-366 | the last flush completes the encoding and its blocks, or the callback has granted all but this one |
| NetBuf.NetBuf.PutAll | freec++/public/ftplib.c:319-353 | the loop passes the whole encoding through the buffer; stopped, it has sent exactly the granted blocks, at least two are missing and an octet of the input is not counted |
| NetBuf.NetBuf.PutExpanded | freec++/public/ftplib.c:322-352 | one octet of input keeps sent octets, buffer and input still to come equal to the whole encoding, also when the buffer is flushed between CR and LF |
| LineCodec.EncodeLength | freec++/public/ftplib.c:322-352 | the encoding is longer by the number of bare LFs |
| LineCodec.EncodeIdempotent | freec++/public/ftplib.c:322-338 | encoding encoded text changes nothing |
| LineCodec.EncodedLineEnds | freec++/public/ftplib.c:322-338 | on the wire every LF follows a CR |
| LineCodec.DecodeEncode | freec++/public/ftplib.c:322-338 | encoding does not change what the reader decodes |
| Chunking.BlocksAreFile | freec++/public/ftplib.c:339-365 | the blocks concatenated are the whole and there are as many as BlockCount |
| Chunking.BlocksAreFull | freec++/public/ftplib.c:339-365 | no block is empty and all but the last are full |
| Chunking.BlockCountIsCeiling | freec++/public/ftplib.c:339-365 | BlockCount is length divided by size, rounded up |
| LineCodec.SeamCost | freec++/public/ftplib.c:315-322 | encoding block by block is longer by exactly the number of CR/LF pairs across a boundary |
| LineCodec.SeamLaw | freec++/public/ftplib.c:1250-1252 | encoding block by block equals encoding the file whole iff no boundary falls between CR and LF |
| LineCodec.NoPairsNoSeams | freec++/public/ftplib.c:1250-1252 | files without CR LF have no such boundary, for any block size |
| LineCodec.UploadRoundTrip | freec++/public/ftplib.c:1248-1271 | upload then line-wise download restores the file iff no block contains a CR LF pair |
| LineCodec.UploadLinesFit | freec++/public/ftplib.c:1248-1262 | lines that fit a buffer of max octets go on the wire as lines that fit max + 1 |
| Replies.OnlyLastMatches | freec++/public/ftplib.c:386-402 | the pattern of code and space picks out the final line of a multi-line reply and no other |
| Replies.SkipToFinal | freec++/public/ftplib.c:391-402 | the loop stops behind the final line |
| Replies.ReadResp | freec++/public/ftplib.c:375-407 | takes exactly one reply off the stream for any chunking and answers whether its first digit is the expected one |
| Session.Control.ReadReply | freec++/public/ftplib.c:375-407 | against a server: reads the oldest reply that is left, and waits for good when none is |
| Commands.SpokenAppend | freec++/public/ftplib.c:643-645 | a command puts one line more on the wire than its string has line ends |
| Commands.OneOrTwoCommands | freec++/public/ftplib.c:643-645 | a command with CR LF inside is the same octets as two commands |
| Commands.NoLineEndsIff | freec++/public/ftplib.c:643-645 | a string breaks no line iff no position of it ends one |
| Commands.LoginReads | freec++/public/ftplib.c:666-673 | the server reads a name and a password |
| Commands.RenameReads | freec++/public/ftplib.c:1416-1419 | the server reads the old and the new name of a file |
| Commands.TypeReads | freec++/public/ftplib.c:923 | the server reads a representation: text iff the mode is A, image iff it is I |
| Commands.TransferReads | freec++/public/ftplib.c:927-958 | the server reads a request to retrieve the path for a read, to store it for a write, and a list of names or a full one for the two listings |
| Commands.PassiveReads | freec++/public/ftplib.c:714 | the server reads a request for passive mode |
| Commands.PortReads | freec++/public/ftplib.c:789-795 | the server reads the address of the listening socket and its port, high octet first |
| Commands.CommandsAreHeard | freec++/public/ftplib.c:643-645 | commands that no string of the caller's breaks are heard one after the other as what they read, whatever went before |
| Session.Control.SendCmd | freec++/public/ftplib.c:635-652 | a command that fits is sent and every line of it answered; the oldest reply is read; nothing is left iff nothing was and the string breaks no line; too long a command is not sent |
| Session.Control.SendTransfer | freec++/public/ftplib.c:635-652 | after a transfer command exactly the final reply, if it has started, and the replies to further lines are left |
| Session.Control.AcceptConnection | freec++/public/ftplib.c:840-904 | for every outcome of select and accept: whether the next reply has been read, and what the response buffer starts with |
| Session.Control.CloseData | freec++/public/ftplib.c:1043-1064 | reads one more reply unless the last response was 4yz or 5yz; gets stuck iff there is none then |
| Session.Control.OpenPort | freec++/public/ftplib.c:682-833 | sends PASV, or PORT with the listening socket's address, or nothing; succeeds iff the mode is valid, the system calls succeed and the answer opens a port; always in step |
| Session.Control.StartTransfer | freec++/public/ftplib.c:956-974 | after the transfer command: usable with the final reply to come, given up, or stuck, and exactly when |
| Session.Control.Access | freec++/public/ftplib.c:911-975 | which replies are left for every way it can end; and, where no string breaks a line, what the server hears in the octets sent: the representation, the data port, and the transfer that the caller wants |
| Commands.PathGuardsDisagree | freec++/public/ftplib.c:952-958 | a path passes FtpAccess but is refused by FtpSendCmd iff it has 1017 octets |
| Session.Control.Xfer | freec++/public/ftplib.c:1208-1279 | after a transfer, successful or not, the client is in step iff it was not derailed |
| Session.Control.XferDerailsIff | freec++/public/ftplib.c:911-975 | unless reported complete early, a transfer derails iff the mode breaks a line, or the transfer command is due and its path breaks a line or has the one length |
| Session.Control.AccessChangesOnly | freec++/public/ftplib.c:927-958 | of what the server hears of a transfer only a request to store changes its files, and only the file of that path; the representation is text iff the mode is A |
| Session.Control.EarlyCompletionDerails | freec++/public/ftplib.c:962-972 | a PORT transfer completed while the client waits for the data connection leaves it out of step |
| Session.Control.InjectedLineDerails | freec++/public/ftplib.c:956-961 | at a path with CR LF and a second command in it the client falls out of step |
| Session.Control.Login | freec++/public/ftplib.c:659-675 | the server hears the name, and the password iff it is asked for; in step iff the strings that go out break no line, and then the result in terms of the one or two answers |
| Session.Control.Rename | freec++/public/ftplib.c:1409-1423 | the server hears the old name, and the new one iff that is accepted, as far as they are short enough; in step iff the strings that go out break no line, and then the result in terms of the two answers |
| Session.Control.RenameMovesTheFile | freec++/public/ftplib.c:1416-1421 | what it hears moves exactly that file |
| Session.Control.Perform | freec++/public/ftplib.c:635-675 | one operation keeps the two sides in step iff it does not derail; its commands and all counts are accounted for |
| Session.Control.Run | freec++/public/ftplib.c:1208-1279 | over every run of operations the client is in step after each of them iff none derails; then the replies read are those sent and the commands sent are those of the operations |
| Session.Control.PlainRunsAreSmooth | freec++/public/ftplib.c:840-975 | no run derails against a server that completes no transfer before its data connection exists, if no string breaks a line and no path has 1017 octets |
| Session.Control.EndTransfer | freec++/public/ftplib.c:1273-1279 | after a transfer whose data connection opened the final reply is read, also when the data loop failed |
| HostPort.HostPortRoundTrip | freec++/public/ftplib.c:716-726 | the six octets printed as for PORT and scanned as from a PASV reply land in their positions again |
| HostPort.DecimalDigits | freec++/public/ftplib.c:789-795 | an octet is printed as its decimal digits |
| HostPort.NumbersOfJoined | freec++/public/ftplib.c:789-795 | scanning comma-separated decimals gives the printed numbers and stops behind them |
| DataTransfer.DataHandle.Account | freec++/public/ftplib.c:996-1006 | progress accounting: xfered grows by the octets moved, each reset stands for more than cbbytes of them, and xfered1 exceeds cbbytes exactly after a refused read; when the callback fires and what it changes |
| DataTransfer.DataHandle.FtpRead | freec++/public/ftplib.c:980-1008 | for every plan and all answers: the result is the line, the chunk or what a stopped wait leaves of a line, unless the progress report is refused; 0 in every other case; xfered grows by what was read either way |
| DataTransfer.DataHandle.FtpWrite | freec++/public/ftplib.c:1013-1038 | for every plan and all answers: a call reports all its data iff its code is sent whole or only the last flush of an ASCII connection is refused, and otherwise has sent less; accounting holds in every case |
| DataTransfer.DataHandle.Upload | freec++/public/ftplib.c:1248-1259 | for every plan and all answers: whether the upload reports success and then exactly what is on the wire; the whole file is sent iff each flush is granted, where the callback is asked, and each block accepted whole |
| DataTransfer.DataHandle.Download | freec++/public/ftplib.c:1260-1272 | for every plan and all answers: exactly what is in the file; it is the whole iff the stream comes whole and the reports are agreed to, and otherwise a front part of it unless a refused wait tears a CR LF pair, and then it differs |
| Completeness.UploadCompleteIff | freec++/public/ftplib.c:1248-1259 | an upload is complete, and reported so, iff the callback grants each flush of an ASCII upload and the system accepts each block whole |
| Completeness.SentWholeIff | freec++/public/ftplib.c:1013-1038 | writes that all report their data have sent everything iff no single flush was refused or cut short |
| Completeness.UnaskedUpload | freec++/public/ftplib.c:1020-1024 | in image mode, or without a callback, an upload that reports success is complete |
| Completeness.DownloadCompleteIff | freec++/public/ftplib.c:1260-1272 | a download is complete iff the stream comes whole for its mode and the callback agrees to every progress report |
| Completeness.FileWholeIff | freec++/public/ftplib.c:1260-1272 | the pieces that get past the progress reports make up the whole file iff they cover the stream, none is torn and none is held back |
| Completeness.FrontIff | freec++/public/ftplib.c:285-286 | whatever ends a download, the file is a front part of the whole iff no wait between a CR and its LF was refused |
| Completeness.FrontOrTorn | freec++/public/ftplib.c:285-286 | and if one was, the file differs from the whole at a position both have |
| Completeness.AsciiCoveredIff | freec++/public/ftplib.c:243-302 | line by line the calls cover the stream iff, seen octet by octet, no needed read fails and a wait is refused only within a line, not between CR and LF and not twice in a row |
| Completeness.ImageCoveredIff | freec++/public/ftplib.c:987-993 | chunk by chunk they cover it iff the plan reads it out before a failure and the callback grants as many waits as there are chunks |
| Completeness.UnaskedDownloadCompleteIff | freec++/public/ftplib.c:280-293 | without a callback a download is complete iff the stream is read out before a read fails and, for a text that ends within a line, the read after that does not fail |
| Completeness.CalmDownload | freec++/public/ftplib.c:1260-1272 | when nothing fails and nothing is refused a download is complete |
| Completeness.CalmUpload | freec++/public/ftplib.c:1248-1259 | and so is an upload |
| Completeness.ATornFile | freec++/public/ftplib.c:285-286 | a stream, a plan and answers with which a CR that the decoded text does not have stays in the file |
| LineCodec.CutDecodes | freec++/public/ftplib.c:243-302 | a line cut by a stopped wait decodes to the same text unless the cut falls between CR and LF |
| DataTransfer.UploadThenDownload | freec++/public/ftplib.c:1248-1271 | end to end through both connections: restored iff no block contains a CR LF pair, for every chunking of both |
| FileTransfer.FtpXfer | freec++/public/ftplib.c:1208-1279 | for everything that can happen on the data connection: success is reported iff it opens and, for an upload, each write reports all its data; then exactly what has been transferred, and when that is complete; what the server hears leaves its files as they are for a read and changes only the named file for a write, in the representation the data is coded in; in step iff not derailed |
| FileTransfer.UnaskedSuccess | freec++/public/ftplib.c:1020-1024 | an image-mode upload, or one without a callback, succeeds iff it is complete |
| FileTransfer.StoppedDownload | freec++/public/ftplib.c:989-993 | an image-mode transfer whose first wait is stopped reports success whenever the data connection opens, with an empty file for a stream that is not empty |
| FileTransfer.StoreThenFetch | freec++/public/ftplib.c:1387-1402 | FtpPut then FtpGet over one control connection, with a server that carries out what it hears: it has the uploaded file under the path and all others as before, sends what it has under the path asked for, and an image-mode file is restored, an ASCII one iff no block contains a CR LF pair |
| FileTransfer.StoredAndFetched | freec++/public/ftplib.c:1248-1271 | the two codecs composed restore a file iff it survives the mode |
| LinkList.Registry.constructor | linklist.c:9-18 | the new list is empty |
| LinkList.Registry.Insert | linklist.c:21-32 | the new user is first, the others follow unchanged |
| LinkList.Registry.Delete | linklist.c:35-57 | the list becomes Remove of what it was |
| LinkList.Registry.Search | linklist.c:74-87 | null iff nobody of that name is listed, else the first node of that name |
| LinkList.Registry.Destroy | linklist.c:60-71 | every node is freed exactly once, the sentinel last |
| Roster.RemoveIsOneLess | linklist.c:38-54 | removal by name takes away exactly the entry searchName reports |
| Roster.CountAfterRemove | linklist.c:38-54 | one entry of that name less, all other names untouched |
| ChatServer.ChatServer.ProcAddFriend | server_proc.c:21-48 | state and writes as ChatSpec.Handle says |
| ChatServer.ChatServer.ProcDelFriend | server_proc.c:51-69 | state and writes as ChatSpec.Handle says |
| ChatServer.ChatServer.ProcSendMsg2One | server_proc.c:72-98 | state and writes as ChatSpec.Handle says |
| ChatServer.ChatServer.ProcSendMsg2All | server_proc.c:101-117 | each socket is sent the message once for every entry of the list that has this socket and names a friend of the sender, and nothing else is sent |
| ChatServer.ChatServer.ProcSendFile2One | server_proc.c:120-151 | the packet goes as it is to the first entry of its receiver; the sender gets it back cleared, with a notice, iff there is none |
| ChatServer.ChatServer.ProcClientMessage | threadPool.c:97-141 | filter and dispatch: state and writes as ChatSpec.Serve says |
| ChatServer.ChatServer.CheckReceiverIsFriend | server_mysql.c:80-122 | true iff the friends table has a row for the pair |
| ChatServer.ChatServer.AcceptClient | server_daemon.c:73-88 | registration puts name and socket first in the list |
| ChatServer.ChatServer.ClientGone | threadPool.c:116-128 | a closed session's name is removed once |
| ChatServer.ChatServer.FetchMessages | mysql.c:340-372 | the rows shown are exactly those whose receiver is the user, the rows left exactly the others, both in the order of the table and with their multiplicity |
| ChatClient.Client.DoProcAddFriendRequest | client_proc.c:5-41 | own name as sender: shown only; otherwise both rows are inserted and "agreed" goes back to the requester iff the user accepts, else "rejected" and no row |
| ChatSpec.BroadcastReachesFriends | server_proc.c:106-114 | each listed session of a friend gets the message as often as it is listed, nobody else gets anything |
| ChatSpec.SendOneIsExactlyOneFate | server_proc.c:72-98 | a one-to-one message is bounced, delivered live or stored, visibly and exclusively; the last two only between friends |
| ChatSpec.FriendshipStaysSymmetric | mysql.c:447-450 | paired inserts and deletes keep the table symmetric; a delete removes both directions whatever their multiplicity |
| ChatSpec.DeleteFriendTells | server_proc.c:51-69 | no row of the pair is left, no other pair changes, and the sender alone is told, of success iff there was a row |
| ChatWorld.ServeKeepsFriends | server_mysql.c:188-191 | a server step only ever removes pairs, symmetrically |
| ChatWorld.StepKeepsCounted | linklist.c:21-57 | every event keeps the number of nodes of each name equal to the number of its live sessions, duplicate logins included |
| ChatWorld.OneAccount | server_proc.c:72-98 | in any state a one-to-one message is, as can be seen afterwards, exactly one of bounced, stored, delivered, misdelivered or lost; the last two iff the entry found is not a live session of the receiver |
| ChatWorld.StepKeepsConserved | server_proc.c:72-98 | every handled message is in exactly one account, every stored one is stored still or was shown once |
| ChatWorld.AstrayIsStrayCount | server_proc.c:72-98 | over every run exactly those messages go astray that are read while the entry found is not a live session of the receiver |
| ChatWorld.AMessageIsLost | server_proc.c:84-96 | a run that loses a message to a user who is online |
| ChatWorld.StepKeepsNothingWaits | mysql.c:363-372 | nothing stays stored for a user who has fetched and is online |
| ChatWorld.StepKeepsSymmetric | mysql.c:447-450 | every event keeps the friends table symmetric |
| ChatWorld.ReachableStates | server_proc.c:21-98 | all of these in every state of every run |
| ChatIdentity.SearchFindsALiveSession | linklist.c:74-87 | in an exact state searchName finds a live session of the user, and nothing iff there is none |
| ChatIdentity.SearchNamesTheSession | linklist.c:74-87 | with distinct live names it finds exactly the live session of the name |
| ChatIdentity.LeavingIsExactIff | linklist.c:35-57 | leaving removes the session's own node iff searchName would have found that session |
| ChatIdentity.AlwaysExactIff | server_daemon.c:73-88 | the registry is exact in every state of a run iff no session leaves that its user's name does not lead to |
| ChatIdentity.SingleLoginsLeaveFound | server_daemon.c:73-88 | without second logins this is always so |
| ChatIdentity.NewerSessionLeavesFirst | linklist.c:21-57 | a run with a second login that stays exact |
| ChatIdentity.ExactRunsLoseNothing | server_proc.c:72-98 | no one-to-one message goes astray over a run whose states are exact |
| ChatLaws.BroadcastReachesLiveFriends | server_proc.c:101-117 | a broadcast that the server reads is put on the socket of each live session of a friend of its sender exactly once, on no other, and changes nothing else |
| ChatLaws.ABroadcastArrives | server_proc.c:101-117 | the same from the moment a user sends it |
| ChatLaws.UserSendsServerReads | threadPool.c:97-141 | what a user sends, of whatever kind, is what the server reads |
| ChatLaws.DeletionIsTold | server_proc.c:51-69 | a request to delete a friend takes both rows of the pair and no other, and is confirmed, iff there is a row; otherwise it comes back |
| ChatLaws.FileIsRouted | server_proc.c:120-151 | in an exact state a piece of a file goes as it is to a live session of its receiver, or its sender is told that there is none |
| ChatLaws.OthersAreDropped | threadPool.c:102-110 | a message that reads "exit" or is of a kind that is only printed has no effect |
| ChatLaws.FetchShowsOwn | mysql.c:340-372 | a fetch shows exactly the stored messages of its user and leaves exactly the others, both in order |
| ChatLaws.ShownIsShownToReceiver | mysql.c:340-365 | over every run, whatever has been shown was shown by a fetch of its receiver, as often as it was stored then |
| ChatLaws.AnswerTellsTheOutcome | client_proc.c:27-40 | a request is answered "agreed" iff this step has inserted both rows of the pair, else "rejected" |
| ChatLaws.AgreedAnswersAreTrue | client_proc.c:11-40 | over runs in which only sessions leave that their names lead to: an answer "agreed" under way means that a user has accepted a request issued to that user |
| ChatIdentity.PrivateMessageIsRouted | server_proc.c:72-98 | in an exact state a one-to-one message between friends goes to a live session of its receiver, or is stored iff there is none; otherwise its sender gets it back |
| ChatIdentity.RequestIsRouted | server_proc.c:21-48 | in an exact state a friend request goes to a live session of the user asked, or is lost iff there is none; its sender hears only of an unknown user |
| ChatHandshake.ServerKeepsPacket | server_proc.c:21-151 | what the server puts in flight is addressed to the session it is written to, or is a notice to its sender, iff the socket found is one of a user the message names |
| ChatIdentity.SecondLoginMisplacesAnEntry | linklist.c:35-57 | a concrete run after which a user's name leads to another user's socket, with distinct live names |
| ChatHandshake.AlwaysFlightOkIff | server_proc.c:21-151 | in every state of a run messages are only under way to the users they name iff the server always routes right |
| ChatHandshake.ExactRunsRouteRight | linklist.c:74-87 | it does where the registry is exact |
| ChatHandshake.HandshakeIsSafe | client_proc.c:11-40 | an answer is never taken for a request; a request was issued by its sender to this very user |
| ChatHandshake.AlwaysTableConsentIff | client_proc.c:11-40 | every pair in the friends table is there from the start or by an accepted request, in every state of a run, iff no user accepts a request that names another receiver from somebody who is not a friend in this way already |
| ChatHandshake.ReachableHandshakes | client_proc.c:11-40 | from the start on, while only sessions leave that their names lead to, messages reach the users they name and friendship rests on consent |
| ChatHandshake.AForeignRequestIsAccepted | client_proc.c:11-40 | a run in which b accepts a request that c issued to a |
| ChatHandshake.StepLowersWeight | server_proc.c:21-48 | where messages are routed right, every read of a handshake message lowers an explicit measure that only a new request raises |
| ChatHandshake.HandshakesEnd | server_proc.c:21-48 | over every such run at most two server forwards, and four reads in all, per request |
| ChatHandshake.EndlessStarts | server_proc.c:21-48 | a run to a state where an answer is on its way to the very socket it comes from |
| ChatHandshake.ExchangeNeverEnds | client_proc.c:11-40 | from there one request is read any number of times |
| FileRelay.Reader.Fread | client_file.c:114-117 | the next octets, with the end noticed only by a short read |
| FileRelay.SendFile | client_file.c:86-144 | exactly the padded chunks of the file, ceil(n / 255) of them, also for multiples of 255 |
| FileRelay.RelayedAll | threadPool.c:102-110 | the relay passes everything on iff no payload reads as "exit" |
| FileRelay.ExitIff | threadPool.c:102-110 | a payload reads as "exit" iff its first five octets are these four and NUL |
| FileRelay.ImageIff | client_file.c:286-299 | a name counts as that of an image iff "png" or "jpg" stands anywhere in it |
| FileRelay.Receiver.DoRecvFile | client_file.c:243-320 | counter and file after one packet; a packet that came back changes neither |
| FileRelay.LastTest | client_file.c:286-304 | the test for the last packet holds iff the packets so far plus this one reach ceil(n / 255) |
| FileRelay.CounterCounts | client_file.c:300-304 | before the last packet the counter is the number of packets received |
| FileRelay.TailArrives | client_file.c:281-304 | from any packet on, the rest of the file arrives and the counter returns to 0 |
| FileRelay.ArrivedIsFile | client_file.c:286-299 | what arrives is the file iff the last chunk has no NUL, or for image names fills its packet |
| FileRelay.FileRoundTrip | client_file.c:114-133 | the receiver ends between files with exactly the file appended iff no packet is filtered and the last chunk survives |
| FileRelay.CounterAfterFile | client_file.c:286-304 | the counter after a file of which packets were dropped |
| FileRelay.OneFileArrives | client_file.c:252-304 | a receiver between files gets a file from its own packets and is between files again iff no packet is dropped |
| FileRelay.FilesRoundTrip | client_file.c:252-304 | over every list of files each arrives from its own packets with the counter at 0 after it iff no packet of any of them reads as "exit" |
| FileRelay.TransferFile | server_proc.c:131-148 | sender, relay and receiver together change the receiver's file and counter as ReceiveAll says; from a counter of 0 the file is appended as it is iff no packet reads as "exit" and the last chunk survives for this name |
| JobQueue.JobList.LinkLast | threadPool.c:314-325 | the job becomes the last of the chain; the stale tail of an empty queue is not read |
| JobQueue.JobList.UnlinkFirst | threadPool.c:176-177 | the first job leaves the chain, the rest stays in order |
| JobQueue.Monitor.ProducerTest | threadPool.c:310-312 | waits at capacity, otherwise counts; the live counter decides |
| JobQueue.Monitor.WorkerTest | threadPool.c:174-177 | takes the oldest job, or waits, or leaves on shutdown, when there is none |
| JobQueue.Monitor.WorkerRun | threadPool.c:189-191 | the job that is run has not been run before |
| JobQueue.Monitor.Step | threadPool.c:164-192 | every statement of every thread keeps the invariant and makes of threads, mutex, counter, chain and records exactly what that statement does, in program order |
| JobQueue.Monitor.ProducerLink | threadPool.c:314-325 | the counted job ends the chain and the accepted ones |
| JobQueue.Monitor.WorkerTake | threadPool.c:174-177 | the worker holds the job that was first and has been taken |
| JobQueue.Monitor.Run | threadPool.c:295-330 | over every interleaving, with a shutdown at any time: the states of the run, each what the statement scheduled makes of the one before; accepted = taken followed by queued; no job has run twice and all that have run have been taken; chain length = counter <= 100 unless shutting down; the tail is the last node |
| JobQueue.ProducerAlone | threadPool.c:295-330 | a producer alone on a queue below capacity has its request linked last after four steps, and nothing else is changed |
| JobQueue.WorkerAlone | threadPool.c:164-192 | a worker alone on a queue with jobs has taken the first and run it after five steps |
| JobQueue.WaitsOrLeaves | threadPool.c:174-175 | a producer at capacity and a worker at an empty queue wait; on shutdown the worker leaves |
| JobQueue.RequestsAreServed | threadPool.c:164-192 | up to 100 requests, one producer and one worker each, are all run in the order in which they came |
| JobQueue.WrittenQueue.Add | threadPool.c:308-325 | a call as written counts always and links unless it finds 100 |
| JobQueue.ProduceAsWritten | threadPool.c:308-325 | n calls as written: n counted, all linked but the one that found 100; counter and chain agree iff n <= 100, and the chain keeps to the bound iff n <= 101 |

## Left out

- NetBuf.NetBuf.ReadLine: only lines whose octets and NUL fit the caller's buffer (an unterminated tail needs one octet more), because what the code does with longer ones depends on how the reads cut the stream, and it clears the first octet of the buffer instead of ending the string. The comparison two octets before the end of a line is guarded for lines of one octet.
- NetBuf.NetBuf.TakeBuffered: the same limit on the line.
- NetBuf.NetBuf.CollectLine: the same limit on the line.
- NetBuf.ReadEveryLine: the same limit on every line.
- Replies.ReadResp: only replies whose lines fit the response buffer and whose first line has at least four octets.
- Session.Control.Xfer: the control connection itself stays up; the outcomes of socket, connect, bind, listen, select and accept are parameters, and the data loop is in FileTransfer.FtpXfer. When the octets of a reply arrive is up to the socket's plan; a server that waits for something other than the client's commands before it replies is not told apart.
- Session.Control.Run: the run is followed up to the operation after which the client is out of step. Other commands (FtpMkdir, FtpChdir, FtpSite, FtpDelete, FtpSize, FtpPwd and the like) are one SendCmd each and would add only easy members; FtpConnect, FtpQuit, FtpOptions and FtpClose of a control connection are not modelled.
- HostPort.ScanHostPort: no sign before a number, and a scan that stops early is NoMatch, where the code goes on with whatever the variables held.
- FileTransfer.StoreThenFetch: data connections on which nothing fails or interrupts; FileTransfer.FtpXfer has each of the two transfers on any connection.
- FileTransfer.FtpXfer: opening, reading and writing the local file always succeeds. The empty writeline of FtpClose sends nothing and is not modelled.
- DataTransfer.DataHandle.Download: ASCII streams only with lines that fit the reader's buffer.
- DataTransfer.DataHandle.FtpRead: a buffer of size 0 is not passed; lines fit the buffer.
- ChatSpec.Handle: a notice copied over a payload is an abstract overlay, not octets; the acknowledgement of procBanOne and the handlers that only print are no-ops.
- ChatWorld.Step: when a client leaves, its messages that the server has not read are dropped; the session loop would read them before it sees the end of the stream (threadPool.c:97-141). Each handler and each pair of SQL statements is one atomic, successful step; TCP framing and message truncation are not modelled; messages in flight may arrive in any order.
- FileRelay.SendFile: files below 2^31 octets, names that fit the header, and no failure of open, stat or write.
- FileRelay.FilesRoundTrip: one sender at a time to a receiver that stays online.
- JobQueue.Monitor.ProducerTest: the test as intended, on the live counter and before counting; JobQueue.ProduceAsWritten has the test as written.
- JobQueue.Monitor.WorkerTest: the exit as intended; the code goes on to take a job from the empty queue on shutdown.
- JobQueue.Monitor.Step: one mutex for the whole critical section; the code unlocks another one after taking a job.
- JobQueue.Monitor.Run: the monitor as intended, with one mutex (the code unlocks another one after taking a job), the capacity test repeated on the live counter before counting, and no job taken from an empty queue on shutdown. No liveness: signals are not modelled, a waiting thread may wake at any time.
- Menus, password entry, bans, SQL text and MySQL connections: user interface and plumbing.
- Thread creation and destruction, epoll, the unused circular list and the older copies of the programs.
