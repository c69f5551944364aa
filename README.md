# HotK agent core in Dafny

HotK is a Windows agent. It keeps a TCP connection to a control server. When the
server sends a request, the agent replies with a screenshot (a BMP file) or with
the machine's DNS name. This project models the sequential logic at its core and
proves properties of that model:

- **Write queue and framing** (`Net`, tcp_client.dfy). `TcpClient` is a class.
  `send` pushes an 8-byte little-endian length header and the payload onto
  `_msg_queue`, and it starts draining only if the queue was empty.
  `perform_send` writes the front buffer. On success the completion handler pops
  that buffer and re-arms while the queue is non-empty; on error it stops.
  Ghost fields record every payload sent and every buffer written. The class
  invariant states that the written buffers followed by the queue are exactly
  the framed sends in call order. From it follow the single-writer property and
  the FIFO property: the wire is a prefix of the framed stream, and it decodes
  back to the payloads once the queue drains.
- **Message tags** (`MessageTypes`, message_type.dfy). The `uint16_t`
  enumeration, with to/from conversions and their round trip.
- **Dispatch** (`Handlers`, handlers.dfy). `process_message` routes a tag to
  `get_machine_info` or `capture_screen`. Each handler makes at most one `write`
  on the client, modelled as an `Outbox` that logs calls. The handler methods are
  proved against the response functions `Respond`, `MachineInfoResponse` and
  `ScreenCaptureResponse`.
- **BMP layout** (`Bmp`, `ScreenCaptures`, `Graphics`).
  - The 14-byte `BITMAPFILEHEADER` and 40-byte `BITMAPINFOHEADER` are
    serialised little-endian, and a BMP reader parses them back.
  - `ScreenCapture` (a class) fills its header members in place and assembles
    the file in `to_bmp`. It also lists row offsets bottom-up in
    `get_bitmap_rows`, a loop.
  - `Graphics::create_bitmap_info` computes the DWORD-aligned stride, and
    `to_vector` assembles the same layout.
- **Containers and errors** (`Containers`, `Errors`).
  - The `data()`/`size()` byte views of `PrimitiveContainer<T>`,
    `VectorContainer<T>` and `PtrContainer`.
  - The `ErrorCode` value type and its `operator bool`.

Shared helpers live in `Bytes` (little-endian and two's complement encodings,
with their round trips) and `Wrappers` (`Option`, `Result`). A thrown
`Win32Error` is modelled as a `Failure` result, or as an escaping error value.

What the code does, and so what the model does:
- The 8-byte length header is the only framing. No type tag goes on the wire.
- There is no reconnection, backoff or queue clearing; `close` keeps the
  outbound queue.
- `capture_screen` does not catch errors from `Graphics`. They escape the
  handler.

## Model

| member | source | states |
|---|---|---|
| Bytes.LittleEndianRoundTrip | HotK/net/tcp_client.cpp:52-56 | Reading the `width` little-endian bytes of a value gives the value back. |
| Bytes.FromLittleEndianRoundTrip | HotK/net/tcp_client.cpp:34-41 | Any byte string is the little-endian encoding of the value read from it. |
| Bytes.TwosComplementRoundTrip | HotK/net/containers/primitive_container.h:27-29 | The signed value is recovered from its two's complement bit pattern. |
| Net.FrameHeader | HotK/net/tcp_client.cpp:52-56 | The header is exactly 8 bytes, and reading it little-endian gives the payload length. |
| Net.Buffers | HotK/net/tcp_client.cpp:58-59 | Each send contributes exactly two buffers. |
| Net.BuffersAppend | HotK/net/tcp_client.cpp:58-59 | One more send appends its header and then its payload at the tail; earlier buffers are unchanged. |
| Net.StreamCons | HotK/net/tcp_client.cpp:52-59 | One send's bytes on the wire are its header followed by its payload. |
| Net.DecodeStreamRoundTrip | HotK/net/tcp_client.cpp:34-41 | Splitting the framed stream of any sends at the 8-byte length headers gives back exactly those payloads, in order. |
| Net.WrittenIsPrefix | HotK/net/tcp_client.cpp:58-81 | If the written buffers followed by the queue are the framed sends, the written bytes are a prefix of the stream; when the queue is empty they decode to all the payloads sent. |
| Net.EmptyPayloadBuffers | HotK/net/tcp_client.cpp:52-59 | An empty payload still queues an 8-byte header encoding 0, followed by an empty buffer. |
| Net.ThreeBytePayloadHeader | HotK/net/tcp_client.cpp:52-56 | A 3-byte payload gets the header 03 00 00 00 00 00 00 00. |
| Net.TcpClient.constructor | HotK/net/tcp_client.cpp:6-11 | A new client has an empty queue, no write in flight and a closed socket. |
| Net.TcpClient.ConnectCompleted | HotK/net/tcp_client.cpp:24-32 | After a connect attempt completes the socket is open, whether the attempt succeeded or failed; the queue is untouched. |
| Net.TcpClient.IsConnected | HotK/net/tcp_client.cpp:43-46 | Returns whether the socket is open. |
| Net.TcpClient.Close | HotK/net/tcp_client.cpp:91-94 | The socket is closed and the queue is kept. |
| Net.TcpClient.Send | HotK/net/tcp_client.cpp:48-66 | Appends header then payload to the queue. It starts a write of the header iff the queue was empty before; otherwise the write state is unchanged, so a failed queue stays stalled. The invariant is kept. |
| Net.TcpClient.PerformSend | HotK/net/tcp_client.cpp:68-70 | Issues one write, whose buffer is the whole front buffer. |
| Net.TcpClient.WriteCompleted | HotK/net/tcp_client.cpp:71-82 | On success it pops exactly the front buffer onto the wire and re-arms iff the queue is non-empty. On error the queue is unchanged and no write is in flight. The invariant is kept. |
| Net.TcpClient.SingleWriter | HotK/net/tcp_client.cpp:51-81 | Without a failed write, exactly one write is outstanding iff the queue is non-empty. |
| Net.TcpClient.WireIsPrefix | HotK/net/tcp_client.cpp:58-81 | The bytes on the wire are always a prefix of the framed sends in call order, and they decode to all payloads once the queue drains. |
| MessageTypes.ToU16 | HotK/net/messages/message_type.h:6-11 | Every tag's value is at most 3, and only None is 0. |
| MessageTypes.EnumeratorValues | HotK/net/messages/message_type.h:7-10 | None = 0, ScreenCapture = 1, MachineInfo = 2, ServerShutdown = 3. |
| MessageTypes.FromU16 | HotK/net/messages/message_type.h:6-11 | A u16 names an enumerator iff it is at most 3, and that enumerator has this value. |
| MessageTypes.ToU16RoundTrip | HotK/net/messages/message_type.h:6-11 | tag → u16 → tag is the identity. |
| MessageTypes.ToU16Injective | HotK/net/messages/message_type.h:6-11 | The four enumerators have pairwise distinct values. |
| Handlers.NameBytes | HotK/handlers/handlers.cpp:60-63 | The buffer has the name's length and its characters as bytes, in order. |
| Handlers.Outbox.Write | HotK/handlers/handlers.cpp:64 | A write call is appended to the client's log. |
| Handlers.RouteOf | HotK/handlers/handlers.cpp:13-24 | Tag 2 (MachineInfo) routes to get_machine_info, tag 1 (ScreenCapture) to capture_screen, and every other value to the default branch, in both directions. |
| Handlers.MachineInfoResponse | HotK/handlers/handlers.cpp:43-65 | A found name gives exactly one MachineInfo write of the name's bytes. A failed lookup gives no write, and no error escapes. |
| Handlers.ScreenCaptureResponse | HotK/handlers/handlers.cpp:67-79 | An error escapes iff nothing is written. A write is the single ScreenCapture write of the to_vector image. |
| Handlers.Respond | HotK/handlers/handlers.cpp:11-25 | Any message yields at most one write, and none when an error escapes. |
| Handlers.RespondByTag | HotK/handlers/handlers.cpp:11-25 | Each named tag runs its handler and nothing else. Any other tag writes nothing and raises nothing. The payload plays no part. |
| Handlers.ScreenCaptureSendsBmp | HotK/handlers/handlers.cpp:67-79 | When every collaborator succeeds, the single write is a bfSize-byte BMP whose headers parse back to those to_vector built. |
| Handlers.ScreenCaptureFailureEscapes | HotK/handlers/handlers.cpp:67-79 | The first failing collaborator's error escapes and nothing is written. |
| Handlers.ProcessMessage | HotK/handlers/handlers.cpp:11-25 | Appends to the client exactly the writes of Respond, and lets exactly its error escape. |
| Handlers.GetMachineInfo | HotK/handlers/handlers.cpp:43-65 | Appends exactly the writes of MachineInfoResponse. |
| Handlers.CaptureScreen | HotK/handlers/handlers.cpp:67-79 | Appends exactly the writes of ScreenCaptureResponse and returns its escaping error. |
| Bmp.FileHeaderBytes | HotK/graphics/screen_capture.cpp:66-69 | The file header occupies 14 bytes. |
| Bmp.InfoHeaderBytes | HotK/graphics/screen_capture.cpp:70-73 | The info header occupies 40 bytes. |
| Bmp.FileHeaderRoundTrip | HotK/graphics/screen_capture.cpp:66-69 | A BMP reader parses the 14 bytes back into the same file header. |
| Bmp.InfoHeaderRoundTrip | HotK/graphics/screen_capture.cpp:70-73 | A BMP reader parses the 40 bytes back into the same info header. |
| Bmp.PixelArea | HotK/graphics/screen_capture.cpp:79-87 | The pixel area has `size` bytes: the scan lines first, zeros after them. |
| Bmp.BmpFileLayout | HotK/graphics/screen_capture.cpp:65-79 | The file header is at 0..13, the info header at 14..53 and the pixels after them. |
| Bmp.AssembleFile | HotK/graphics/screen_capture.cpp:59-87 | Appending both headers, resizing to bfSize and writing the scan lines at bfOffBits gives exactly the BMP file of those headers and pixels. |
| Bmp.BmpFileRoundTrip | HotK/graphics/screen_capture.cpp:65-79 | A reader recovers both headers and the pixel area from the file. |
| ScreenCaptures.ScreenCapture.Create | HotK/graphics/screen_capture.cpp:13-20 | If GetObject fails, its error is thrown and no object results. Otherwise both headers describe the bitmap. |
| ScreenCaptures.ScreenCapture.FillBitmapHeaders | HotK/graphics/screen_capture.cpp:22-26 | Fills the info header, then the file header from it, or fails with GetObject's error and leaves both headers unchanged. |
| ScreenCaptures.ScreenCapture.FillBitmapInfo | HotK/graphics/screen_capture.cpp:28-45 | biSize = 40, and width, height, planes and bit count are copied. biCompression = BI_RGB, biSizeImage = width·height·4 and biClrImportant = 0. The unassigned fields keep their contents. On a GetObject failure that error results. |
| ScreenCaptures.ScreenCapture.FillBitmapFileHeader | HotK/graphics/screen_capture.cpp:47-54 | bfType = "BM", bfSize = 14 + 40 + biSizeImage, both reserved words are 0 and bfOffBits = 14 + biSize, so bfOffBits + biSizeImage = bfSize. |
| ScreenCaptures.ScreenCapture.ToBmp | HotK/graphics/screen_capture.cpp:56-93 | Exactly bfSize bytes: the file header, the info header, then from bfOffBits the pixel area. On a GetDIBits failure that error results. |
| ScreenCaptures.ScreenCapture.GetBitmapRows | HotK/graphics/screen_capture.cpp:139-156 | A negative height fails (`reserve` throws std::length_error); otherwise it returns height entries, and entry k is at offset (height−1−k)·width·4. |
| ScreenCaptures.RowsWithinImage | HotK/graphics/screen_capture.cpp:145-155 | Every listed row lies within the width·height·4 pixel bytes. |
| ScreenCaptures.RowsReversed | HotK/graphics/screen_capture.cpp:147-153 | Consecutive entries are consecutive stored rows in reverse order. |
| Graphics.StrideIsAligned | HotK/graphics/graphics.cpp:76 | The stride is a multiple of 4 and at least ⌈w·bpp/8⌉, and it is less than ⌈w·bpp/8⌉ + 4. |
| Graphics.StrideIsMinimal | HotK/graphics/graphics.cpp:76 | No smaller multiple of 4 holds a row's bits. |
| Graphics.StrideTimesRows | HotK/graphics/graphics.cpp:76 | biSizeImage is a multiple of 4 and holds every row's pixel bytes. |
| Graphics.CreateBitmapInfo | HotK/graphics/graphics.cpp:61-80 | biSize = 40, and the geometry is copied. BI_RGB and biClrImportant = 0. biSizeImage = Stride(w, bpp)·h = ((w·bpp+31)/32)·4·h, so it is a multiple of 4 and holds every row. The unassigned fields are zero. On a GetObject failure that error results. |
| Graphics.FileHeaderFor | HotK/graphics/graphics.cpp:86-91 | bfType = "BM", reserved words 0, bfOffBits = 14 + biSize and bfOffBits + biSizeImage = bfSize. |
| Graphics.ImageLayout | HotK/graphics/graphics.cpp:93-105 | The image is exactly bfSize bytes. The file header parses from 0..13 and the info header from 14..53, and the pixels start at bfOffBits = 54. |
| Graphics.ToVector | HotK/graphics/graphics.cpp:82-119 | Returns the BMP file of the bitmap; otherwise the GetObject or GetDIBits error, whichever happens first. |
| Containers.ObjectBytesRoundTrip | HotK/net/containers/primitive_container.h:27-29 | Reading a value's sizeof(T) little-endian object bytes gives the value back. |
| Containers.NewPrimitive | HotK/net/containers/primitive_container.h:8-25 | A container exists iff T is integral, and it stores the constructor argument. |
| Containers.PrimitiveBytes | HotK/net/containers/primitive_container.h:27-29 | data() views exactly size() bytes. |
| Containers.PrimitiveSize | HotK/net/containers/primitive_container.h:31-33 | size() is sizeof(T), which is 1, 2, 4 or 8. |
| Containers.PrimitiveRoundTrip | HotK/net/containers/primitive_container.h:22-29 | Decoding data() gives the value passed to the constructor. |
| Containers.VectorBytes | HotK/net/containers/vector_container.h:16-18 | data() views the vector's storage, sizeof(T) bytes per element. |
| Containers.StorageElement | HotK/net/containers/vector_container.h:16-18 | Element i's object bytes lie at bytes i·sizeof(T) up to (i+1)·sizeof(T) of the storage. |
| Containers.VectorBytesElements | HotK/net/containers/vector_container.h:12-18 | Reading element i's bytes back from data() gives the i-th element stored at construction. |
| Containers.VectorSizeIsByteCountIff | HotK/net/containers/vector_container.h:16-22 | size() equals the byte count behind data() iff sizeof(T) is 1 or the vector is empty. |
| Containers.VectorSizeCounterexample | HotK/net/containers/vector_container.h:20-22 | A one-element uint32_t vector reports size() 1 while data() views 4 bytes. |
| Containers.VectorByteSize | HotK/net/containers/vector_container.h:20-22 | The byte count is the number of bytes behind data(). |
| Containers.NewPtr | HotK/net/containers/ptr_container.h:12-23 | data() and size() return exactly the pointer and size given to the constructor. |
| Containers.PtrBytes | HotK/net/containers/ptr_container.h:17-19 | The viewed bytes are the caller's buffer at the pointer, size() of them, read at the time of viewing. |
| Errors.Default | HotK/errors/errors.cpp:5-9 | The default error has code 0 and an empty message. |
| Errors.Make | HotK/errors/errors.cpp:11-26 | code() returns the code given at construction. what() returns the message up to its first NUL, which is the whole message when it has none. |
| Errors.What | HotK/errors/errors.cpp:11-21 | what() is a prefix of the stored message and contains no NUL. |
| Errors.EmbeddedNulMessage | HotK/errors/errors.cpp:17-21 | A std::string message "a\0b" reads back from what() as "a". |
| Errors.CStrLen | HotK/errors/errors.cpp:28-31 | strlen counts the characters before the first NUL. |
| Errors.Truthy | HotK/errors/errors.cpp:28-31 | The error is true iff its code is non-zero or what() is non-empty, that is, iff the message starts with a non-NUL character. |
| Errors.DefaultIsFalse | HotK/errors/errors.cpp:5-31 | A default-constructed error is false. |
| Errors.NonZeroCodeIsTrue | HotK/errors/errors.cpp:28-31 | Any error with a non-zero code is true, whatever its message. |
| Errors.TruthyWithoutNul | HotK/errors/errors.cpp:28-31 | For a message without NUL, the error is true iff its code is non-zero or its message is non-empty. |

## Left out

- The asio machinery of `TcpClient` is not modelled. This covers the resolver and the I/O thread in the constructor, `read`, `run`, `stop` and the `post` hop. It is network I/O and threading. `send` is one atomic step, and the completions of connect and write are explicit method calls.
- The `read` completion handler and the inbound message loop are not part of this model. `DecodeStream` stands for how a peer splits the stream at the 8-byte length headers.
- `TcpClient::write(type, bytes)`, called by the handlers, has no body in the sources, so the client is a sink logging each call. HotK/net/tcp_client.h is a stale declaration and is not part of this model.
- Win32 and GDI calls are foreign calls. This covers GetObject, GetDIBits, GetDC, CreateCompatibleDC, `Graphics::capture_screen`, GetComputerNameEx and the deleters. Their outcomes are inputs: a bitmap or an error, the scan lines GetDIBits writes or an error, and a host name or an error.
- `get_computer_name` resizes the string to the length GetComputerNameEx first reports, so the string may carry a trailing NUL. The model takes the returned string as given.
- The PNG path is a foreign library with `setjmp` error handling. This covers `to_png`, `perform_png_conversion` and the `ss_png_*` callbacks. `get_bitmap_rows` is modelled on its own, with offsets standing for row pointers into the buffer.
- ScreenCaptures.ScreenCapture.FillBitmapInfo: it requires non-negative dimensions with width·height·4 below 2^31, so it does not model LONG wrap-around or top-down (negative-height) bitmaps.
- Graphics.CreateBitmapInfo: it requires non-negative dimensions with width·bitsPixel + 31 and the image size below 2^31, so it does not model LONG wrap-around or top-down bitmaps.
- ScreenCaptures.ScreenCapture.GetBitmapRows: offsets are unbounded integers, so it does not model LONG overflow of `width * 4` or of the advancing row pointer. The debug `assert(height > 0 || width > 0)` at its entry is not modelled.
- ScreenCaptures.ScreenCapture.ToBmp: it requires the scan lines GetDIBits writes to fit in the biSizeImage-byte pixel area. The source writes past the buffer when they do not. Graphics.ToVector requires the same.
- The fields of `ScreenCapture::bitmap_info` that are never assigned are indeterminate. They are kept at whatever the object held before, not constrained.
- `BaseContainer` is an abstract class with virtual `data()`/`size()`. Each container's two accessors are separate functions here, with no common interface type.
- `PrimitiveContainer<T>` and `VectorContainer<T>` are modelled for the integral widths 1, 2, 4 and 8 with two's complement for signed types. `VectorContainer<T>` for non-integral element types is not modelled.
- No reconnection, backoff or queue clearing exists in the sources, so none is modelled.
- The constructor's `assert(!hdc || !hbitmap_ptr)` tests moved-from parameters and is not modelled.
- `main.cpp` is bootstrap, with its own connect and read callbacks, and is not part of this model.
- The error subclasses and their headers only forward to `ErrorCode`. The subclasses are the `ErrorKind` tag.
- Net.TcpClient.ConnectCompleted: a connect aborted because the socket was closed meanwhile is not modelled. Each completed attempt leaves the socket open.

## Findings

| source | as written | input that shows it | evidently intended | confidence | as-written member | corrected member |
|---|---|---|---|---|---|---|
| HotK/net/containers/vector_container.h:20-22 | `size()` returns `_vec.size()`, the element count | a `VectorContainer<uint32_t>` holding one element: `size()` is 1, but `data()` points at 4 bytes | `size()` is the number of bytes behind `data()`, as in `PrimitiveContainer` (`sizeof(T)`), i.e. `_vec.size() * sizeof(T)` | medium, not executed | Containers.VectorSizeCounterexample | Containers.VectorByteSize |
