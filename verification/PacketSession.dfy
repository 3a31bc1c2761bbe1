/** The receive side of a TCP session: the receive buffer, `PacketSession::OnRecv` and
    `Session::ProcessRecv`. */
module PacketSession {
  import opened Bytes
  import opened Framing
  import opened KernelAnswer

  const BUFFER_SIZE: nat := 0x10000
  const BUFFER_COUNT: nat := 10

  class RecvBuffer {
    const bufferSize: nat
    const buffer: array<Byte>
    var readPos: nat
    var writePos: nat

    ghost predicate Valid()
      reads this
    {
      buffer.Length == bufferSize * BUFFER_COUNT && readPos <= writePos <= buffer.Length
    }

    /** The bytes written and not yet read. */
    ghost function Contents(): seq<Byte>
      reads this, buffer
      requires Valid()
    {
      buffer[readPos..writePos]
    }

    constructor (size: nat)
      ensures Valid() && bufferSize == size && Contents() == [] && fresh(buffer) && FreeSize() == size * BUFFER_COUNT
    {
      bufferSize := size;
      buffer := new Byte[size * BUFFER_COUNT](_ => 0);
      readPos, writePos := 0, 0;
    }

    function DataSize(): int
      reads this
    {
      writePos - readPos
    }

    function FreeSize(): int
      reads this
    {
      buffer.Length - writePos
    }

    /** The two regions that `Clean` passes to `memcpy` do not overlap. */
    ghost predicate CopyIsSafe()
      reads this
    {
      DataSize() > 0 && FreeSize() < bufferSize ==> DataSize() <= readPos
    }

    method Clean()
      requires Valid() && CopyIsSafe()
      modifies this, buffer
      ensures Valid() && Contents() == old(Contents())
      ensures readPos == 0 || (readPos == old(readPos) && writePos == old(writePos))
      ensures FreeSize() >= bufferSize || DataSize() > bufferSize * (BUFFER_COUNT - 1)
    {
      var dataSize := DataSize();
      if dataSize == 0 {
        readPos, writePos := 0, 0;
      } else if FreeSize() < bufferSize {
        Copy(dataSize);
        readPos := 0;
        writePos := dataSize;
      }
    }

    /** `memcpy` of the unread bytes to the front, byte by byte. */
    method Copy(count: nat)
      requires Valid() && count == DataSize() <= readPos
      modifies buffer
      ensures buffer[..count] == old(buffer[readPos..writePos])
    {
      for i := 0 to count
        invariant forall k :: 0 <= k < i ==> buffer[k] == old(buffer[readPos + k])
        invariant forall k :: readPos <= k < writePos ==> buffer[k] == old(buffer[k])
      {
        buffer[i] := buffer[readPos + i];
      }
    }

    method OnRead(numOfBytes: nat) returns (ok: bool)
      requires Valid()
      modifies this
      ensures Valid() && writePos == old(writePos)
      ensures ok == (numOfBytes <= old(DataSize()))
      ensures Contents() == if ok then old(Contents())[numOfBytes..] else old(Contents())
      ensures readPos == if ok then old(readPos) + numOfBytes else old(readPos)
    {
      if numOfBytes > DataSize() { return false; }
      readPos := readPos + numOfBytes;
      return true;
    }

    method OnWrite(numOfBytes: nat) returns (ok: bool)
      requires Valid()
      modifies this
      ensures Valid() && readPos == old(readPos)
      ensures ok == (numOfBytes <= old(FreeSize()))
      ensures writePos == if ok then old(writePos) + numOfBytes else old(writePos)
    {
      if numOfBytes > FreeSize() { return false; }
      writePos := writePos + numOfBytes;
      return true;
    }

    /** What the kernel does between `WSARecv` and its completion: it writes at `WritePos`, at most
        `FreeSize` bytes. */
    method KernelWrite(chunk: seq<Byte>)
      requires Valid() && |chunk| <= FreeSize()
      modifies buffer
      ensures buffer[readPos..writePos + |chunk|] == old(Contents()) + chunk
    {
      for i := 0 to |chunk|
        invariant buffer[..writePos] == old(buffer[..writePos])
        invariant buffer[writePos..writePos + i] == chunk[..i]
      {
        buffer[writePos + i] := chunk[i];
      }
    }
  }

  class PacketSession {
    const recvBuffer: RecvBuffer
    var connected: bool
    var receiving: bool              // a WSARecv is pending
    var delivered: seq<seq<Byte>>    // the arguments of OnRecvPacket, in order
    var stuck: bool                  // OnRecv did not return

    /** Holds whenever no handler of this session is running. */
    ghost predicate Valid()
      reads this, recvBuffer, recvBuffer.buffer
    {
      && recvBuffer.Valid() && recvBuffer.bufferSize == BUFFER_SIZE
      && Incomplete(recvBuffer.Contents())
      && recvBuffer.FreeSize() >= BUFFER_SIZE
    }

    ghost function View(): Stream
      reads this, recvBuffer, recvBuffer.buffer
      requires recvBuffer.Valid()
    {
      if stuck then Stuck(delivered) else Live(delivered, recvBuffer.Contents())
    }

    constructor ()
      ensures Valid() && View() == Live([], []) && !connected && !receiving
      ensures recvBuffer.FreeSize() == 655_360
    {
      var b := new RecvBuffer(BUFFER_SIZE);
      recvBuffer := b;
      connected, receiving, delivered, stuck := false, false, [], false;
    }

    /** An immediate failure that is no reset leaves the session connected but receiving nothing more. */
    method RegisterRecv(k: Kernel)
      requires !receiving
      modifies this`receiving, this`connected
      ensures receiving == (old(connected) && k.Taken?)
      ensures connected == (old(connected) && k != RefusedNow(true))
    {
      if !connected { return; }
      match k
      case Taken => receiving := true;
      case RefusedNow(reset) => if reset { connected := false; }
    }

    /** Delivers the complete packets at the front of the given bytes and returns how many bytes they
        took. */
    method OnRecv(s: seq<Byte>) returns (processLen: nat)
      requires !stuck
      modifies this`delivered, this`stuck
      ensures processLen <= |s|
      ensures delivered == old(delivered) + Parse(s).packets
      ensures stuck == Parse(s).Spins?
      ensures !stuck ==> s[processLen..] == Parse(s).rest
    {
      hide Parse, PrependAll;
      processLen := 0;
      assert s[0..] == s;
      while true
        invariant processLen <= |s| && !stuck
        invariant PrependAll(delivered, Parse(s[processLen..])) == PrependAll(old(delivered), Parse(s))
        decreases |s| - processLen
      {
        var dataSize := |s| - processLen;
        if dataSize < HEADER_SIZE { break; }
        var size := U16(s[processLen], s[processLen + 1]);
        if dataSize < size { break; }
        if size == 0 {
          stuck := true;
          break;
        }
        DeliverOne(delivered, s, processLen);
        delivered := delivered + [s[processLen..processLen + size]];
        processLen := processLen + size;
      }
      LeavingParse(s, processLen, delivered, old(delivered));
    }

    /** A receive completed with these bytes. Neither overflow branch can be taken: the kernel stays
        within the space it was offered and `OnRecv` within the data it was given. */
    method ProcessRecv(chunk: seq<Byte>, k: Kernel)
      requires Valid() && receiving && !stuck && |chunk| <= recvBuffer.FreeSize()
      modifies this, recvBuffer, recvBuffer.buffer
      ensures recvBuffer.Valid() && View() == Feed(old(View()), chunk)
      ensures !stuck ==> Valid() && recvBuffer.FreeSize() >= 65_536
      ensures !stuck && chunk != [] ==>
                && receiving == (old(connected) && k.Taken?)
                && connected == (old(connected) && k != RefusedNow(true))
      ensures chunk == [] ==> !connected && !receiving
    {
      recvBuffer.KernelWrite(chunk);
      receiving := false;
      if |chunk| == 0 {
        connected := false;
        assert old(recvBuffer.Contents()) + chunk == old(recvBuffer.Contents());
        return;
      }
      var ok := recvBuffer.OnWrite(|chunk|);
      if !ok {
        assert false;  // Disconnect(L"OnWrite Overflow")
      }
      assert recvBuffer.Contents() == old(recvBuffer.Contents()) + chunk;
      HandleData(k);
    }

    /** `ProcessRecv` once the new bytes count as written. */
    method HandleData(k: Kernel)
      requires recvBuffer.Valid() && recvBuffer.bufferSize == BUFFER_SIZE && !receiving && !stuck
      modifies this`delivered, this`stuck, this`receiving, this`connected, recvBuffer, recvBuffer.buffer
      ensures recvBuffer.Valid()
      ensures var f := Parse(old(recvBuffer.Contents()));
              && delivered == old(delivered) + f.packets && stuck == f.Spins?
              && (f.Done? ==>
                    && recvBuffer.Contents() == f.rest && Valid()
                    && receiving == (old(connected) && k.Taken?)
                    && connected == (old(connected) && k != RefusedNow(true)))
    {
      hide Parse, Concat, PacketSize;
      ghost var s := recvBuffer.Contents();
      var dataSize := recvBuffer.DataSize();
      var processLen := OnRecv(recvBuffer.buffer[recvBuffer.readPos..recvBuffer.writePos]);
      if stuck { return; }
      ParseCovers(s);
      var ok := false;
      if 0 <= processLen <= dataSize { ok := recvBuffer.OnRead(processLen); }
      if !ok {
        assert false;  // Disconnect(L"OnRead Overflow")
      }
      recvBuffer.Clean();
      RegisterRecv(k);
    }
  }
}
