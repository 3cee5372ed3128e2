# Verified models of the algorithmic cores

Dafny models of the parts of this C++ library in which something non-trivial is computed, and proofs of what
those parts are for. Each file models one component, in the form the program gives it: loops over arrays stay
loops over arrays, objects that update their fields stay classes, and the protocol between threads is a state
machine whose runs are all interleavings.

| file | component |
|---|---|
| Grid.dfy, FloodFill.dfy, FindRects.dfy | connected regions of a flat image: filling, erasing, boxing (imgproc/imgproc.cpp) |
| Integral.dfy, SseIntegral.dfy, SseIntegral64f.dfy | vectorised integral images (imgproc/sse/sse-imgproc.cpp) |
| CallbackTrace.dfy, ConnectionProtocol.dfy, ConnectionRuns.dfy, ConnectionDelivery.dfy | the worker loop against concurrent stops (network/network-connection.cpp) |
| LabelledMatrix.dfy, LabelSums.dfy, AdjacencyMatrix.dfy | a matrix with labels and two index maps (common/adjacency-matrix.cpp) |
| CachedVector.dfy | a vector in a file behind a read window (common/cached-vector.cpp) |
| Text.dfy, HttpStream.dfy | HTTP request framing (network/http-common.cpp) |
| ConfigText.dfy, ConfigWritten.dfy, ConfigFiles.dfy, ConfigExpansion.dfy, Config.dfy, ConfigRoundTrip.dfy | configuration files with includes (common/conf-parser.cpp) |
| Params.dfy | URL parameters (common/stringutils.cpp, network/http-common.cpp, network/netclient.cpp) |
| Base64.dfy | Base64 (common/stringutils.cpp) |
| ChunkedSend.dfy | sending a buffer in packages (network/tcp-server.cpp) |
| StreamMedian.dfy | a typical value of a stream (common/stream-median.cpp) |

Common.dfy holds two datatypes that several models share. `dafny verify dfyconfig.toml` checks the whole project.

## What is proved

**Regions.** A region is defined by paths between pixels, independently of any search. `Floodfill` gives each pixel
the colour that the size of its original 8-connected region calls for; erasing a small region never reaches one that
was kept. `FindRects` erases exactly the regions that hold a start pixel, boxes each once, and each box is the
unique tight one; the boxes returned are those of the regions with two pixels far enough apart. Every access to the
explicit stacks of `w * h` entries is proved inside them: a pixel is on a stack at most once.

**Integral images.** Both vector routines store at every place of the destination the sum of the source above and to
the left, channel by channel; the two lanes by which twelve-lane stores overrun a ten-channel pixel are always
overwritten, and no load or store leaves its array. Four stored values give the sum over any rectangle, exactly for
the real routine and modulo 2^32 for the integer one. The integer routine is proved modulo 2^32 for all images, and
exact for all images of at most 8421504 pixels.

**Stopping a connection.** Once any `stop_work` has finished, in every interleaving of the worker with any number of
stopping threads, no state builds a session or leaves one running, the worker is never blocked in `run()`, each of
its steps brings it closer to the end of the loop and no step of another thread takes it back, so that it leaves the
loop in every endless run in which it keeps being scheduled. The callbacks of every run are whole sessions in the
documented order, and a handler that is dispatched after its session was stopped delivers nothing. Unless someone
stops the session, a handler without an error does call its callback, exactly once, the work that opens a session
and a read that was asked for stay waiting until `run()` dispatches them, and a worker that is to reconnect opens
the next session; a handler that is to end the session ends it, and a finished `close_current_session` has closed
whatever session there is.

**Adjacency matrices.** Sorting ends (each swap of two columns removes an inversion of the column sums), leaves both
sums descending, these being sums of weights over all labels, and changes no weight; addition and equality are label
by label, whatever order either side has been sorted into.

**Cached vectors.** A read returns the element that was added, over every interleaving of additions and reads: the
position that a read leaves stale never suppresses a seek that is needed, and the file is never read after a write
or written after a read without one.

**HTTP framing.** Any concatenation of well-formed requests, bodies being any bytes, is delivered request by
request, each at its last byte, with its method in capitals, its URL and its body. The announced length is found
among any other headers, in any letter case. Carriage returns outside bodies change nothing.

**Configuration files.** Reading with `!include` by reopening and skipping performs the file with all includes
expanded in place, save the last lines without a line feed right after an include, which are lost, in this file and
in every file included at any depth; so it is expansion in place exactly if no such line does anything. Reading back
a written file restores every string, number and flag; a string that fits in a line comes back exactly if it has no
`#`, no NUL and no blank at either end.

**Parameters and Base64.** What is written from a map parses back exactly when no key and no value is empty or holds
`&` or `=`. Base64 encoding and decoding are inverse on all octets, and on exactly the canonical texts.

**Chunked sending.** At most one write is in flight, and `on_after_send` means that as many octets are on the wire
as were queued. They are the queued octets if, while a write is reading the buffer, only data that fits its capacity
is queued; that condition is exact. Data queued later is sent exactly if the chain of writes is not over.

**Stream median.** Over every run the median is the middle of the retained numbers, as many numbers having been
dropped at either end, each time the least and the greatest; one push moves it no further than to a neighbour.

## Where the program differs from its documentation

- imgproc/imgproc.hpp:135-143 describes the parameter `background` of `floodfill` as the colour around the
  regions; in the code it is the colour of the regions, and erasing writes 0. The model follows the code.
- common/conf-parser.hpp:60 calls `read()` a re-read of the file. `skip_lines` stays behind, so that a second
  `read()` starts after the last include (`ConfigExpansion.RereadIsWhole`; a file for which this shows is in
  `ConfigExpansion.RereadSkips`).
- network/tcp-server.hpp:172 describes `async_send_flag` as set while sending; it is never taken back
  (`ChunkedSend.QueuedGoesOut`; a run is in `ChunkedSend.QueuedTooLate`).
- network/tcp-server.hpp:55-58 asks that the memory given to `async_send_data` stay where it is until the write is
  done; `async_send_data(const std::string &)` itself may move it (`ChunkedSend.FittingIsExact`; a run is in
  `ChunkedSend.OutgrownRun`).
- network/http-common.cpp:361-373 refuses parameters with an empty value, which the client writes
  (`Params.ParamsRoundTrip`; a map is in `Params.EmptyValueRefused`).

## Model

| member | source | states |
|---|---|---|
| Grid.SameComponent | imgproc/imgproc.cpp:830-867 | reachability is symmetric and transitive: all pixels of a region have the same region |
| Grid.ComponentOfPart | imgproc/imgproc.cpp:830-867 | pixels recoloured elsewhere do not change a region that they leave whole |
| Grid.SearchEnds | imgproc/imgproc.cpp:844-864 | a search with nothing left to look at has seen exactly the region of its start |
| Grid.StackFits | imgproc/imgproc.cpp:837-838 | a stack of distinct pixels has at most `w * h` entries |
| Grid.FillPushes | imgproc/imgproc.cpp:855-862 | painting a neighbour and pushing it keeps the state of the search and stays inside the stacks |
| Grid.FillPops | imgproc/imgproc.cpp:846-848 | the popped coordinates are those of an open pixel of the image |
| FloodFill.FloodfillPixel | imgproc/imgproc.cpp:830-867 | paints exactly the start pixel and the pixels of the region colour 8-reachable from it, and returns their number |
| FloodFill.FirstFill | imgproc/imgproc.cpp:815-821 | the fill from the first pixel of a region met by the scan covers its original region |
| FloodFill.EraseFill | imgproc/imgproc.cpp:822-823 | the erasing fill reaches the same pixels again and no region that was kept |
| FloodFill.SettledFill | imgproc/imgproc.cpp:811-827 | one turn of the scan settles one region and touches no other |
| FloodFill.Floodfill | imgproc/imgproc.cpp:802-828 | each pixel of a region of at least `min_cont_size` pixels ends as `fill_with`, every other pixel as 0 |
| FloodFill.KeptExactly | imgproc/imgproc.cpp:802-828 | a pixel keeps the colour of its region exactly if `min_cont_size` pixels can be walked to from it, in eight directions, over that colour |
| FindRects.TightUnique | imgproc/imgproc.cpp:908-966 | an area has only one tight box |
| FindRects.FindBoundingRect | imgproc/imgproc.cpp:908-966 | paints exactly the pixels reachable over gaps and returns their tight box, its width being the difference of the extremes |
| FindRects.OneSeedPerObject | imgproc/imgproc.cpp:883-902 | each object has exactly one first start pixel |
| FindRects.SettledSeed | imgproc/imgproc.cpp:887-889 | the scan finds a start pixel exactly at the first one of an object |
| FindRects.SettledFill | imgproc/imgproc.cpp:890-893 | boxing an object erases it whole and no other |
| FindRects.SettledEnd | imgproc/imgproc.cpp:869-906 | after the scan exactly the objects with a start pixel are erased |
| FindRects.SeedBoxed | imgproc/imgproc.cpp:890-898 | the box of every large object is in the result |
| FindRects.FindRects | imgproc/imgproc.cpp:869-906 | erases exactly the objects, returns the boxes of the large ones in the order of their first start pixels, and the largest box of any |
| FindRects.ErasedExactly | imgproc/imgproc.cpp:869-906 | a pixel is erased exactly if a start pixel can be reached from it over bright pixels by steps within the gap |
| FindRects.KeptBoxes | imgproc/imgproc.cpp:890-898 | the boxes returned are exactly those of the objects with two pixels farther apart than `min_obj_size` percent of a side, each once, in the order of their first start pixels |
| FindRects.LargestSpan | imgproc/imgproc.cpp:895-901 | the size returned is the largest product of a column and a row distance between pixels of one object |
| Integral.FirstColumnZero | imgproc/sse/sse-imgproc.cpp:616-625 | the sums in the first column are zero |
| Integral.PixelStep | imgproc/sse/sse-imgproc.cpp:648-663 | adding the row sums to the row above completes one pixel, whatever the overrun lanes hold |
| SseIntegral.Store | imgproc/sse/sse-imgproc.cpp:661-663 | a store writes its lanes and nothing else |
| SseIntegral.AddRowAbove | imgproc/sse/sse-imgproc.cpp:653-663 | the three stores of a pixel write its ten channels and at most two lanes after them, and nothing else |
| SseIntegral.AddRowAboveLast | imgproc/sse/sse-imgproc.cpp:712-725 | the last pixel is stored without an overrun, and nothing else is written |
| SseIntegral.LoadLanes | imgproc/sse/sse-imgproc.cpp:630-646 | a sixteen-byte load unpacked gives the channels of a pixel and two of the next |
| SseIntegral.RowPixel | imgproc/sse/sse-imgproc.cpp:628-664 | one turn of the vector loop completes one pixel of the integral and the row sums up to it |
| SseIntegral.IntegrateRow | imgproc/sse/sse-imgproc.cpp:621-667 | a row leaves everything up to its end right, from everything before it right |
| SseIntegral.IntegrateLastRow | imgproc/sse/sse-imgproc.cpp:670-701 | the last row stops one pixel early and keeps all loads and stores inside |
| SseIntegral.SseIntegralC10_32s | imgproc/sse/sse-imgproc.cpp:611-726 | the destination is the integral image modulo 2^32, for every image of at least one pixel |
| SseIntegral.PrefixWraps | imgproc/sse/sse-imgproc.cpp:611-726 | sums modulo 2^32 are the exact sums modulo 2^32 |
| SseIntegral.NoOverflow | imgproc/sse/sse-imgproc.cpp:611-726 | up to 8421504 pixels the stored sums are the exact ones |
| SseIntegral.FourCorners | imgproc/sse/sse-imgproc.cpp:611-726 | four entries of the integral image give the sum of any rectangle |
| SseIntegral.FourCornersStored | imgproc/sse/sse-imgproc.cpp:611-726 | four stored values give the sum of any rectangle modulo 2^32, whatever the size of the image |
| SseIntegral64f.AddRowAbove64 | imgproc/sse/sse-imgproc.cpp:475-505 | five two-lane stores write exactly the ten channels of a pixel |
| SseIntegral64f.SseIntegralC10_64f | imgproc/sse/sse-imgproc.cpp:446-608 | every value of the destination is the sum, with `+` on reals, of the source above and to the left |
| SseIntegral64f.FourCornersStored | imgproc/sse/sse-imgproc.cpp:446-608 | four stored values give the sum of any rectangle, summed with `+` on reals |
| SseIntegral64f.StoredIsSum | imgproc/sse/sse-imgproc.cpp:468-499 | each stored value is the sum of everything above and to the left |
| CallbackTrace.WholeSessions | network/network-connection.cpp:619-629 | a trace in order is a sequence of whole sessions: one `on_before_new_connection`, one later `on_session_end`, and `on_close_connection` exactly if there was an `on_new_connection` |
| CallbackTrace.OpenSessionShape | network/network-connection.cpp:619-629 | a session under way has begun once, has not ended, and data comes only after a connection |
| ConnectionProtocol.WorkerKeepsInv | network/network-connection.cpp:603-641 | every step of the worker, its handlers and its own stopping calls keeps the invariant |
| ConnectionProtocol.CallerKeepsInv | network/network-connection.cpp:320-342 | so does every step of a concurrent stopping call |
| ConnectionProtocol.HandlerKeepsInv | network/network-connection.cpp:684-797 | so does every step of the handlers of accepting, connecting, reading and writing |
| ConnectionProtocol.SetupKeepsInv | network/network-connection.cpp:516-531 | so does the setting up of a session under the mutex |
| ConnectionProtocol.CleanupKeepsInv | network/network-connection.cpp:534-547 | so does its cleaning up |
| ConnectionProtocol.StartKeepsInv | network/network-connection.cpp:176-278 | so do `run`, `run_async` and `reset` |
| ConnectionProtocol.RunKeepsInv | network/network-connection.cpp:603-641 | every state of every interleaving satisfies the invariant |
| ConnectionProtocol.NoLostStop | network/network-connection.cpp:338-342 | from the end of a `stop_work` until a `reset`, no state sets up a session or leaves one running |
| ConnectionProtocol.StopLeadsOut | network/network-connection.cpp:603-641 | after a finished stop every step of the worker is closer to the end of `main_loop` |
| ConnectionProtocol.StopNeverBlocks | network/network-connection.cpp:605-634 | after a finished stop the worker cannot block in `run()`, and waits for the mutex only for a thread that can go on |
| ConnectionProtocol.CallersLeave | network/network-connection.cpp:320-335 | a thread holding the mutex releases it within four of its own steps |
| ConnectionProtocol.StopIsKept | network/network-connection.cpp:320-342 | no other thread takes back a finished stop or moves the worker |
| ConnectionProtocol.CallbackDiscipline | network/network-connection.cpp:603-641 | in every state of every run the callbacks so far are in order, and complete when the loop has been left |
| ConnectionProtocol.NoLateDelivery | network/network-connection.cpp:684-762 | data is delivered only by a handler that knows neither an error nor a stop at its start |
| ConnectionRuns.LateHandlerDeliversNothing | network/network-connection.cpp:684-797 | over whole runs: from the dispatch of a handler after `session_stop_flag` was set until the worker is back in `run()`, no connection is announced and no data delivered |
| ConnectionDelivery.HandlerDelivers | network/network-connection.cpp:684-797 | over whole runs: a dispatched handler calls at most its own callback, once; without an error, and if nobody stops the session meanwhile, it calls it, and an announced connection counts as connected |
| ConnectionDelivery.HandlerCloses | network/network-connection.cpp:684-817 | over whole runs: after an error, the idle timer or a signal the worker is in `run()` again only with the session flagged, its socket closed and its `io_service` stopped |
| ConnectionDelivery.TaskWaits | network/network-connection.cpp:494-513 | over whole runs: the work that opens a session, or accepts anew, waits until it is dispatched or `run()` is left, and `run()` can dispatch it |
| ConnectionDelivery.ReadIsKept | network/network-connection.cpp:402-411 | over whole runs: a read that was asked for waits until it is dispatched, the next one is asked for or `run()` is left, and `run()` can dispatch it |
| ConnectionDelivery.CanAskForRead | network/network-connection.cpp:755-759 | after a connection or a read, without a new accept, another read can be asked for on the same socket |
| ConnectionDelivery.AcceptWaits | network/network-connection.cpp:843-858 | a new accept replaces the next read, on a closed socket, and is asked for once |
| ConnectionDelivery.CloseIsWhole | network/network-connection.cpp:320-335 | over whole runs: a `close_current_session` about to return, in any thread, has flagged any session, closed its socket and stopped its `io_service` |
| ConnectionDelivery.NeverDeadlocked | network/network-connection.cpp:603-641 | the worker can go on or waits for the mutex, held by a thread that can |
| ConnectionDelivery.NoStartAfterStop | network/network-connection.cpp:235-241 | over whole runs: once a `stop()` has begun nothing starts before a `reset()` |
| ConnectionDelivery.OpensAnotherSession | network/network-connection.cpp:603-641 | an unstopped worker that is to reconnect calls `on_before_new_connection` of another session, in every endless run in which it is scheduled |
| ConnectionRuns.NobodyMoves | network/network-connection.cpp:320-342 | over runs: after a finished stop no step of another thread moves the worker |
| ConnectionRuns.LeavesTheLoop | network/network-connection.cpp:603-641 | after a finished stop the worker leaves `main_loop` in every endless run in which it is scheduled again and again |
| LabelledMatrix.WeightAt | common/adjacency-matrix.cpp:79-106 | the weight found for two labels is that of the cell their indexes name |
| LabelledMatrix.CellUpdate | common/adjacency-matrix.cpp:74-87 | writing a cell changes the weight of its label pair only |
| LabelledMatrix.RearrangedWeights | common/adjacency-matrix.cpp:222-255 | permuting rows and columns and rebuilding the indexes changes no weight |
| LabelledMatrix.SwapRemovesInversion | common/adjacency-matrix.cpp:238-244 | swapping two neighbouring columns in the wrong order lowers the number of inversions by one |
| LabelledMatrix.TotalsAfterSwap | common/adjacency-matrix.cpp:275-280 | swapping columns swaps their sums and keeps all row sums |
| LabelSums.SumChanges | common/adjacency-matrix.cpp:206-220 | a sum over labels starts at 0 and changes by as much as one of its weights |
| LabelSums.RowTotalOfWeights | common/adjacency-matrix.cpp:206-212 | the sum of a row is the sum over all labels of the weights of its label and those, whatever the order of the columns |
| LabelSums.ColumnTotalOfWeights | common/adjacency-matrix.cpp:214-220 | likewise for the sum of a column |
| LabelledMatrix.AddCell | common/adjacency-matrix.cpp:44-50 | adding one cell of the right side adds to one label pair |
| LabelledMatrix.AgreeAll | common/adjacency-matrix.cpp:58-71 | agreement on all cells of the right side is equality of the weights of all label pairs |
| AdjacencyMatrix.AdjacencyMatrix.SumRow | common/adjacency-matrix.cpp:206-212 | the sum that the sorting of rows compares |
| AdjacencyMatrix.AdjacencyMatrix.SumColumn | common/adjacency-matrix.cpp:214-220 | the sum that the sorting of columns compares |
| AdjacencyMatrix.AdjacencyMatrix.Init | common/adjacency-matrix.cpp:14-35 | distinct labels give a coherent matrix of zeros; the exact condition under which initialising is coherent |
| AdjacencyMatrix.AdjacencyMatrix.SortRows | common/adjacency-matrix.cpp:222-229 | row sums end descending, indexes agree, no weight changes |
| AdjacencyMatrix.AdjacencyMatrix.BubbleColumns | common/adjacency-matrix.cpp:231-246 | ends, with column sums descending and the columns permuted |
| AdjacencyMatrix.AdjacencyMatrix.SwapColumns | common/adjacency-matrix.cpp:275-280 | exchanges two neighbouring columns in every row |
| AdjacencyMatrix.AdjacencyMatrix.SortColumns | common/adjacency-matrix.cpp:231-249 | column sums end descending, row sums, weights and indexes are kept |
| AdjacencyMatrix.AdjacencyMatrix.Sort | common/adjacency-matrix.cpp:251-255 | rows and columns end in descending order of the sums, over all labels, of the weights of their labels, and no weight changes |
| AdjacencyMatrix.AdjacencyMatrix.FindElement | common/adjacency-matrix.cpp:79-106 | finds the cell of a label pair exactly if both labels are known |
| AdjacencyMatrix.AdjacencyMatrix.SetWeight | common/adjacency-matrix.cpp:74-77 | changes the weight of one label pair |
| AdjacencyMatrix.AdjacencyMatrix.AddAll | common/adjacency-matrix.cpp:37-52 | succeeds exactly for equal label sets or an empty left side, and then adds label by label, also to itself |
| LabelSums.SumsAdd | common/adjacency-matrix.cpp:37-52 | the sum of two matrices is determined by their weights, and its sums of rows and columns are the sums of theirs |
| AdjacencyMatrix.AdjacencyMatrix.AddCells | common/adjacency-matrix.cpp:43-50 | the two loops succeed exactly for equal label sets, whatever order either side is sorted into |
| AdjacencyMatrix.AdjacencyMatrix.Equals | common/adjacency-matrix.cpp:54-72 | equality of the weights of all label pairs, hence an equivalence that sorting cannot change |
| CachedVector.HoldsNext | common/cached-vector.cpp:112-119 | writing at the end appends one sample |
| CachedVector.HoldsPart | common/cached-vector.cpp:140-143 | a stretch of the file holds a stretch of the samples |
| CachedVector.CacheManager.ReadyToWrite | common/cached-vector.cpp:106-112 | a position that looks right for appending is right and follows no read |
| CachedVector.CacheManager.ReadyToRead | common/cached-vector.cpp:132-138 | outside the window the stale position never equals the wanted one |
| CachedVector.CacheManager.Init | common/cached-vector.cpp:38-69 | a fresh file is an empty vector; the window is the largest of at most 512 samples that fits in 512 MiB |
| CachedVector.CacheManager.Clear | common/cached-vector.cpp:71-94 | empties the vector |
| CachedVector.CacheManager.Add | common/cached-vector.cpp:96-120 | appends a sample below the size limit and keeps the invariant |
| CachedVector.CacheManager.GetSample | common/cached-vector.cpp:122-145 | returns the sample that was added at that index and changes no sample; a read inside the window leaves the file alone, any other moves the window there |
| Text.FieldLengthIs | network/http-common.cpp:186-189 | how far a text goes without a separator |
| Text.SplitFirst | network/http-common.cpp:186-189 | splitting takes off the first piece |
| Text.SplitAtRun | network/http-common.cpp:186-189 | however many separators there are between two pieces, they are cut out as one |
| Text.TrimBoth | network/http-common.cpp:182-183 | trimming takes away the blanks at both ends and nothing else |
| Text.UpperIsAnyCase | network/http-common.cpp:233-258 | comparing in upper case is comparing without regard to letter case |
| Text.AtoiRoundTrip | common/conf-parser.cpp:211-212 | a printed number reads back |
| Text.AtoiReads | network/http-common.cpp:260 | white space before a number, a plus sign and what follows its digits do not matter |
| HttpStream.AlwaysReading | network/http-common.cpp:89-129 | on all inputs: while content is read, its size is the counter and below the announced length |
| HttpStream.LineProcessed | network/http-common.cpp:95-112 | a line and its end do what its text says, once |
| HttpStream.FirstLineRead | network/http-common.cpp:179-205 | a request line gives the method in upper case and the URL, and resets the counters |
| HttpStream.RequestLineRead | network/http-common.cpp:179-205 | with any blanks around and between its words, a line opens a request exactly if it has three and the third begins with HTTP in any letter case; any other line is ignored |
| HttpStream.BlankLineIgnored | network/http-common.cpp:179-190 | so is a line of blanks |
| HttpStream.HeadersRead | network/http-common.cpp:207-266 | headers are read line by line, completing nothing |
| HttpStream.BodyRead | network/http-common.cpp:114-126 | a body of the announced length completes the request at its last byte |
| HttpStream.StreamReceived | network/http-common.cpp:89-129 | any list of well-formed requests is delivered one by one, at the last byte of each, unmixed |
| HttpStream.RequestsDelivered | network/http-common.cpp:89-129 | as many messages as requests, each ending at the last byte of its own, with its body, its URL and its method in capitals |
| HttpStream.LengthLineRead | network/http-common.cpp:258-266 | a length header in any letter case gives its number, 0 for a negative one |
| HttpStream.AnnouncedLength | network/http-common.cpp:258-266 | the last length header counts, among any other headers |
| HttpStream.DownloadRead | network/http-common.cpp:235-256 | a disposition header, in any letter case, gives the text between its quotes |
| HttpStream.CRsIgnored | network/http-common.cpp:80-83 | carriage returns outside bodies change no request (section 19.3 of RFC 2616) |
| HttpStream.HttpStreamSplitter.ProcessLineBuffer | network/http-common.cpp:175-273 | does to the fields what the line says, in each state |
| HttpStream.HttpStreamSplitter.PushChar | network/http-common.cpp:89-129 | moves the fields as one byte moves the specification and returns whether a request is complete |
| ConfigText.StrippedAt | common/conf-parser.cpp:147-155 | where stripping stops, and that only one blank of a run is cut |
| ConfigText.LineStrip | common/conf-parser.cpp:116-156 | removes leading blanks, the comment and one blank at the end |
| ConfigFiles.PerformBoth | common/conf-parser.cpp:172-238 | performing two lists of actions is performing the one and then, if nothing was thrown, the other |
| ConfigFiles.SkippedStart | common/conf-parser.cpp:181-186 | reading from the start past lines already done is going on after them |
| ConfigFiles.IncludeStep | common/conf-parser.cpp:60-82 | an include performs the other file and then the rest of this one, and the other file has a smaller rank |
| ConfigExpansion.SkippingKeepsTheRest | common/conf-parser.cpp:60-114 | over all files: reading by skipping performs the text with all includes expanded in place, each once and in order, save the last lines without a line feed right after an include, at every depth |
| ConfigExpansion.SkippingIsInPlace | common/conf-parser.cpp:60-114 | reading is expansion in place exactly if no file that is reached loses such a line that does something |
| ConfigExpansion.TailIsLost | common/conf-parser.cpp:60-114 | a file that loses its last line |
| ConfigExpansion.RereadIsWhole | common/conf-parser.cpp:60-82 | a second `read()` performs the same actions exactly if no line up to and including the last include has any |
| ConfigExpansion.SecondReading | common/conf-parser.cpp:78-81 | the first reading performs what comes up to the last include and then what a second reading performs |
| ConfigExpansion.RereadSkips | common/conf-parser.cpp:60-82 | a file of which the second reading performs less than the first |
| Config.LenientNeverThrows | common/conf-parser.cpp:366-380 | with exceptions disabled no line stops the reading |
| Config.ConfigParser.LineRead | common/conf-parser.cpp:84-114 | returns the next line without carriage returns, or what is left at the end of the file |
| Config.ConfigParser.Understand | common/conf-parser.cpp:188-233 | does what a line says, in the lookup order of the program |
| Config.ConfigParser.IncludeParse | common/conf-parser.cpp:60-82 | performs the included file, or fails, and then the rest of this one |
| Config.ConfigParser.Read | common/conf-parser.cpp:172-238 | performs the actions of the file above `skip_lines` in order, up to the first failure if strict, terminates, and leaves `skip_lines` at the last include |
| Config.ConfigParser.Write | common/conf-parser.cpp:240-265 | prints one line for each bound variable and nothing else |
| ConfigWritten.LineMeans | common/conf-parser.cpp:251-256 | the line written for a setting means that setting |
| ConfigWritten.WordsOfALine | common/conf-parser.cpp:207-229 | which variable a key and a value set, and to what; "1", "true", "on" and "0", "false", "off" are the only words for a flag |
| ConfigWritten.KeyAlone | common/conf-parser.cpp:190-204 | a key alone empties a string and sets a flag |
| ConfigWritten.StringComesBack | common/conf-parser.cpp:251-252 | a string that fits in a line comes back exactly if it has no `#`, NUL or blank at an end |
| ConfigWritten.WrittenLines | common/conf-parser.cpp:251-256 | the lines of a written file are the lines of its settings |
| ConfigRoundTrip.WriteThenRead | common/conf-parser.cpp:240-265 | reading a written file restores every bound string, number and flag, whatever they were before |
| Params.JoinSplit | common/stringutils.cpp:106-133 | no text is lost between the pieces |
| Params.PiecesFree | common/stringutils.cpp:106-133 | no piece holds a delimiter |
| Params.AssignmentsClean | network/http-common.cpp:361-373 | a parsed key or value is never empty and holds neither separator |
| Params.SplitJoin | common/stringutils.cpp:106-133 | splitting at one character undoes joining |
| Params.SplitBySubstr | common/stringutils.cpp:106-133 | terminates and returns exactly the non-empty pieces, or the first two of them |
| Params.MapToString | network/netclient.cpp:252-266 | each entry of the map once, joined by `&`, without a trailing one |
| Params.EachOnce | network/netclient.cpp:252-266 | a text of a map has as many entries as the map |
| Params.MapOfEntries | network/http-common.cpp:361-373 | inserting the entries of a map in any order gives the map |
| Params.ParseParams | network/http-common.cpp:361-373 | fails exactly if some piece is not a key, `=` and a value, none empty; otherwise the map of the assignments |
| Params.ParamsRoundTrip | network/http-common.cpp:361-373 | over all maps: what is written parses back to the map exactly when no key and no value is empty or holds `&` or `=` |
| Params.EmptyValueRefused | network/http-common.cpp:361-373 | a map that is written and refused |
| Params.StringToMap | network/netclient.cpp:279-298 | the map of the assignments, empty keys and values included |
| Params.StringToMapRoundTrip | network/netclient.cpp:279-298 | over all maps: what is written reads back exactly when no key and no value holds `&` or `=`; empty ones come back |
| Base64.TableIsAlphabet | common/stringutils.cpp:181-185 | the encoding table is the alphabet of section 4 of RFC 4648 |
| Base64.OctetsBack | common/stringutils.cpp:204-215 | three octets and four sextets are the same 24 bits, seen from the octets |
| Base64.SextetsBack | common/stringutils.cpp:238-255 | and seen from the sextets |
| Base64.GroupsExact | common/stringutils.cpp:202 | `n` octets make `(n + 2) / 3` groups |
| Base64.EncodeCanonical | common/stringutils.cpp:191-220 | an encoding is canonical, with the padding its length calls for |
| Base64.DecodeEncode | common/stringutils.cpp:222-256 | decoding undoes encoding for every non-empty input |
| Base64.CanonicalBack | common/stringutils.cpp:222-256 | encoding undoes decoding for every canonical text |
| Base64.CanonicalIffBack | common/stringutils.cpp:191-256 | of the texts that decode, exactly the canonical ones come back |
| Base64.QuadsPadded | common/stringutils.cpp:218-219 | writing padding over the end of the groups gives the encoding |
| Base64.Base64Encoding.CreateDecodingTable | common/stringutils.cpp:258-264 | the table inverts the alphabet and is 0 elsewhere |
| Base64.Base64Encoding.EncodeOctets | common/stringutils.cpp:191-220 | the loop computes the encoding of section 4 of RFC 4648 |
| Base64.Base64Encoding.DecodeText | common/stringutils.cpp:222-256 | fails exactly for lengths not divisible by four, otherwise decodes every group, as far as padding lets it |
| ChunkedSend.StepKeepsInv | network/tcp-server.cpp:60-84 | every call and every completion keeps the invariant |
| ChunkedSend.EveryRun | network/tcp-server.cpp:155-194 | over every run: at most one write in flight, of at most 512 octets, at most one chain, `on_after_send` only with as many octets on the wire as were queued |
| ChunkedSend.PrefixOnTheWire | network/tcp-server.cpp:60-84 | over every run in which only what fits the capacity is queued while a write is reading: a prefix of all queued octets on the wire, `on_after_send` only with everything queued on it |
| ChunkedSend.FittingIsExact | network/tcp-server.cpp:80-84 | queueing while a write is reading leaves the wire right, whatever happens next, exactly if the data fits |
| ChunkedSend.OutgrownRun | network/tcp-server.cpp:80-84 | a run in which a buffer that moves puts a wrong octet on the wire |
| ChunkedSend.Drains | network/tcp-server.cpp:170-191 | while writes succeed, the write in flight and one more for each 512 octets left send everything and report once |
| ChunkedSend.OverForGood | network/tcp-server.cpp:60-68 | once a chain is over nothing more reaches the wire |
| ChunkedSend.FailedWriteEnds | network/tcp-server.cpp:155-168 | a handler called after closing, with an error or after a short write neither reports nor starts a write, and nothing afterwards does |
| ChunkedSend.QueuedGoesOut | network/tcp-server.cpp:80-84 | data queued in an open session goes out, if writes succeed, exactly if the chain is not over |
| ChunkedSend.QueuedTooLate | network/tcp-server.cpp:60-84 | a run after which a queued octet is never sent |
| ChunkedSend.TcpSession.AsyncSend | network/tcp-server.cpp:60-78 | starts a chain exactly if none was started and the session is open |
| ChunkedSend.TcpSession.AsyncSendData | network/tcp-server.cpp:80-84 | queues the data in any case and then does the same |
| ChunkedSend.TcpSession.AsioWriteHandler | network/tcp-server.cpp:155-194 | continues, reports, or closes after an error, a short write or not at all after closing |
| StreamMedian.InsertedSorted | common/stream-median.cpp:20 | insertion keeps the multiset in order |
| StreamMedian.EveryRun | common/stream-median.cpp:18-39 | over every run: fewer numbers than `set_size`, the median in their middle, nothing lost, and exactly as many trimmed at either end as the number of pushes calls for |
| StreamMedian.ExtremesGo | common/stream-median.cpp:33-38 | over every run: exactly when the set is full one number goes at either end, at most and at least every number that stays |
| StreamMedian.MedianMoves | common/stream-median.cpp:18-39 | one push moves the median to the pushed number clamped between two neighbouring elements |
| StreamMedian.IntStreamMedian.Create | common/stream-median.cpp:5-10 | refuses exactly sizes below 3 |
| StreamMedian.IntStreamMedian.Push | common/stream-median.cpp:18-39 | inserts, takes the middle and, when the set is full, trims the least and the greatest |
| StreamMedian.IntStreamMedian.Reset | common/stream-median.cpp:48-52 | back to the state of construction |

## Left out

- Images of width or height 0; `cv::Mat` itself, of which only the pixel array remains.
- FloodFill.Floodfill: pixels are 0 or `background`, and 0, `background` and `fill_with` are distinct (the program asserts only that the last two differ); what becomes of third colours is not stated.
- FindRects.FindBoundingRect: requires `result_color < start_color`, which `find_rects` asserts; otherwise painted pixels would be found again.
- FindRects.FindRects: the comparison with `0.01 * w` and `0.01 * h` is in exact arithmetic.
- SseIntegral64f.SseIntegralC10_64f: doubles and floats are reals; rounding is not modelled.
- SseIntegral64f.AddRowAbove64: likewise, sums are exact.
- `sse_integral_c10_32f`, which stores one register three times and does not compute the same sums.
- ConnectionProtocol.NoLostStop: a step is one access to shared fields under sequential consistency; `TcpServer::stop` takes no lock and sets its flag last, and has no such property.
- ConnectionProtocol.CallbackDiscipline: user callbacks do not throw, and a thread makes at most finitely many stopping calls in one; log files, timers' queues and time are not modelled.
- ConnectionProtocol.StartKeepsInv: a `reset()` from another thread while a synchronous `run()` is working is not modelled; the program refuses one only while an asynchronous thread exists, and would take the session from under the worker.
- ConnectionRuns.LeavesTheLoop: that the worker is scheduled, and gets the mutex when it asks again and again, is assumed.
- ConnectionDelivery.OpensAnotherSession: that the worker is scheduled, that it is to reconnect and that neither its log file nor its address fails is assumed.
- ConnectionProtocol.RunKeepsInv: the connection is a value that steps change, not a class: a run is an interleaving of several threads.
- AdjacencyMatrix.AdjacencyMatrix.Sort: `std::sort` is any method that orders rows by descending sums; weights are reals; labels are integers standing for the names.
- AdjacencyMatrix.AdjacencyMatrix.AddAll: when it fails, which cells had been added by then is not stated.
- AdjacencyMatrix.AdjacencyMatrix.Init: initialising with repeated names, or again with other names, is only shown to leave the matrix incoherent.
- Sums over a whole matrix or one label, and printing.
- CachedVector.CacheManager.Add: after the wrap at 30 GiB (common/cached-vector.cpp:100-104) nothing is promised: the window and the position are not coherent there.
- CachedVector.CacheManager.Init: only the branch for a fresh file; elements larger than the 512 MiB window, and failures of the file system, are not modelled.
- HttpStream.StreamReceived: `long` and `size_t` are unbounded; `push_line` and `parse_url` are not modelled; letter case is that of ASCII.
- HttpStream.HttpStreamSplitter.ProcessLineBuffer: the file name of a `Content-Disposition` header is modelled but is not part of a delivered request.
- Config.ConfigParser.Understand: bound reals and user callbacks other than `!include` are not looked up.
- Config.ConfigParser.Write: bound reals are not written.
- Config.ConfigParser.Read: bound reals, user callbacks and keys longer than the program's buffer are not modelled; includes must be acyclic, as the program does not end otherwise; error texts, log output and the position after an exception are dropped.
- ConfigRoundTrip.WriteThenRead: flags named `!include` and names bound twice do not come back, because of the lookup order; `int` is unbounded.
- Params.ParseParams: the assignments made before a failure are dropped.
- Params.MapToString: the entries come in some order, which covers that of `std::map`.
- Params.StringToMap: pieces without `=` are outside the model, as the program indexes a piece that is not there.
- Params.SplitBySubstr: an empty delimiter is outside the model, as the program does not end on it.
- Base64.Base64Encoding.DecodeText: the empty text and characters above 127 are outside the model, as the program indexes outside its input or its table.
- ChunkedSend.TcpSession.AsyncSendData: appending moves the buffer at most once, to storage of any greater capacity; `shutdown` and the idle timer are not modelled.
- StreamMedian.IntStreamMedian.Push: `set_nums_set_size` is not modelled; numbers are unbounded.
- Video, logging, console, profiling, random numbers, gradients and filters: wrappers around other libraries.
