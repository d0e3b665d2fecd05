/** `createCommandStreamTask` and `createCommandStreamReceiver` on an allocated command buffer: the commands
    are written one by one behind the earlier launches' and padded to a cache line.
 */
module StreamWriter {
  import opened Words
  import opened DriverUtils
  import opened Commands
  import opened LaunchStream
  import opened BufferObjects
  import opened Runs

  lemma TaskOrder(t: Task)
    ensures var cs := TaskCommands(t);
            && |cs| == 7
            && cs[0] == MediaStateFlush()
            && cs[1] == MediaInterfaceDescriptorLoad(32, t.descriptorStart)
            && cs[2] == GpgpuWalker(t.walk)
            && cs[3] == MediaStateFlush()
            && cs[4] == PipeControl(CS_STALL)
            && cs[5] == PipeControlWrite(CS_STALL + NOTIFY + DC_FLUSH, t.tagAddress, t.tag)
            && cs[6] == BatchBufferEnd()
  {
  }

  lemma ReceiverOrder(r: Receiver, taskAddress: nat)
    ensures var cs := ReceiverCommands(r, taskAddress);
            && |cs| == 13
            && cs[0] == PipelineSelect()
            && cs[1] == LoadRegisterImm(0x7034, if r.usesSharedLocalMemory then 0x6000_0321 else 0x8000_0340)
            && cs[2] == PipeControl(CS_STALL)
            && cs[3] == LoadRegisterImm(0xe404, 0x100)
            && cs[4] == GpgpuCsrBaseAddress(r.preemptionAddress)
            && cs[5] == PipeControl(CS_STALL + RENDER_TARGET_FLUSH + DEPTH_FLUSH + DC_FLUSH)
            && cs[6] == MediaVfeState(r.maxVfeThreads, r.scratchPerThread, r.hasScratch)
            && cs[7] == LoadRegisterImm(0x2580, 0x6_0000)
            && cs[8] == PipeControl(CS_STALL + TEXTURE_INVALIDATE + DC_FLUSH)
            && cs[9] == StateBaseAddress(r.bases)
            && cs[10] == StateSip(r.sip)
            && cs[11] == PipeControl(CS_STALL)
            && cs[12] == BatchBufferStart(taskAddress)
  {
  }

  lemma NothingWritten(before: seq<byte>, cs: seq<Command>)
    ensures Written(before, cs, 0) == before && Written(before, cs, |cs|) == before + DwordBytes(Flatten(cs))
    ensures |Written(before, cs, |cs|)| == |before| + 4 * |Flatten(cs)|
  {
    assert cs[..|cs|] == cs && before + [] == before;
  }

  /** An empty start, and after the last command the end. */
  lemma StartAndEnd(bo: BufferObject, before: seq<byte>, cs: seq<Command>)
    ensures bo.Valid() && bo.currentTaskOffset == 0 && bo.Used() == before ==> bo.HasWritten(before, cs, 0)
    ensures bo.HasWritten(before, cs, |cs|) ==>
              && bo.Valid() && bo.Used() == before + DwordBytes(Flatten(cs))
              && bo.offset == |before| + 4 * |Flatten(cs)| && bo.currentTaskOffset == 4 * |Flatten(cs)|
  {
    NothingWritten(before, cs);
    hide DwordBytes, Flatten, Written;
  }

  lemma UsedLength(bo: BufferObject)
    requires bo.Valid()
    ensures |bo.Used()| == bo.offset
  {
  }

  lemma Flags()
    ensures 0 <= CS_STALL < TWO_32 && 0 <= CS_STALL + NOTIFY + DC_FLUSH
    ensures CS_STALL + NOTIFY + DC_FLUSH + WRITE_IMMEDIATE < TWO_32 && 0 <= WRITE_IMMEDIATE
    ensures 0 <= CS_STALL + RENDER_TARGET_FLUSH + DEPTH_FLUSH + DC_FLUSH < TWO_32
    ensures 0 <= CS_STALL + TEXTURE_INVALIDATE + DC_FLUSH < TWO_32
    ensures TWO_32 == 0x1_0000_0000
  {
  }

  /** Seven commands for the task. */
  method WriteTask(bo: BufferObject, t: Task)
    requires bo.Valid() && bo.offset % 64 == 0 && bo.offset + 192 <= bo.cpuAddress.Length
    modifies bo`offset, bo`currentTaskOffset, bo.cpuAddress
    ensures bo.Valid() && bo.Used() == AppendTask(old(bo.Used()), t)
    ensures bo.offset == old(bo.offset) + 192 && bo.currentTaskOffset == 192
  {
    bo.currentTaskOffset := 0;
    WriteTaskCommands(bo, t);
    CeilShift(old(bo.offset), 144);
    hide TaskCommands, Flatten, DwordBytes;
    bo.AlignToCacheLine();
  }

  method WriteTaskCommands(bo: BufferObject, t: Task)
    requires bo.Valid() && bo.currentTaskOffset == 0 && bo.offset + 144 <= bo.cpuAddress.Length
    modifies bo`offset, bo`currentTaskOffset, bo.cpuAddress
    ensures bo.Valid() && bo.Used() == old(bo.Used()) + DwordBytes(Flatten(TaskCommands(t)))
    ensures bo.offset == old(bo.offset) + 144 && bo.currentTaskOffset == 144
  {
    hide *;
    ghost var cs, before := TaskCommands(t), bo.Used();
    TaskOrder(t);
    Flags();
    TaskLength(t);
    NothingWritten(before, cs);
    UsedLength(bo);
    StartAndEnd(bo, before, cs);
    bo.AppendNext(before, cs, 0, MediaStateFlush());
    bo.AppendNext(before, cs, 1, MediaInterfaceDescriptorLoad(32, t.descriptorStart));
    bo.AppendNext(before, cs, 2, GpgpuWalker(t.walk));
    bo.AppendNext(before, cs, 3, MediaStateFlush());
    bo.AppendNext(before, cs, 4, PipeControl(CS_STALL));
    bo.AppendNext(before, cs, 5, PipeControlWrite(CS_STALL + NOTIFY + DC_FLUSH, t.tagAddress, t.tag));
    bo.AppendNext(before, cs, 6, BatchBufferEnd());
    StartAndEnd(bo, before, cs);
  }

  /** Thirteen commands for the receiver, the last of which jumps to the task. */
  method WriteReceiver(bo: BufferObject, r: Receiver, taskAddress: nat)
    requires bo.Valid() && bo.offset % 64 == 0 && bo.offset + 320 <= bo.cpuAddress.Length
    modifies bo`offset, bo`currentTaskOffset, bo.cpuAddress
    ensures bo.Valid() && bo.Used() == AppendReceiver(old(bo.Used()), r, taskAddress)
    ensures bo.offset == old(bo.offset) + 320 && bo.currentTaskOffset == 320
  {
    bo.currentTaskOffset := 0;
    WriteReceiverCommands(bo, r, taskAddress);
    CeilShift(old(bo.offset), 284);
    hide ReceiverCommands, Flatten, DwordBytes;
    bo.AlignToCacheLine();
  }

  method WriteReceiverCommands(bo: BufferObject, r: Receiver, taskAddress: nat)
    requires bo.Valid() && bo.currentTaskOffset == 0 && bo.offset + 284 <= bo.cpuAddress.Length
    modifies bo`offset, bo`currentTaskOffset, bo.cpuAddress
    ensures bo.Valid() && bo.Used() == old(bo.Used()) + DwordBytes(Flatten(ReceiverCommands(r, taskAddress)))
    ensures bo.offset == old(bo.offset) + 284 && bo.currentTaskOffset == 284
  {
    hide *;
    ghost var cs, before := ReceiverCommands(r, taskAddress), bo.Used();
    ReceiverOrder(r, taskAddress);
    Flags();
    ReceiverLength(r, taskAddress);
    NothingWritten(before, cs);
    UsedLength(bo);
    StartAndEnd(bo, before, cs);
    bo.AppendNext(before, cs, 0, PipelineSelect());
    bo.AppendNext(before, cs, 1, LoadRegisterImm(0x7034, if r.usesSharedLocalMemory then 0x6000_0321 else 0x8000_0340));
    bo.AppendNext(before, cs, 2, PipeControl(CS_STALL));
    bo.AppendNext(before, cs, 3, LoadRegisterImm(0xe404, 0x100));
    bo.AppendNext(before, cs, 4, GpgpuCsrBaseAddress(r.preemptionAddress));
    bo.AppendNext(before, cs, 5, PipeControl(CS_STALL + RENDER_TARGET_FLUSH + DEPTH_FLUSH + DC_FLUSH));
    bo.AppendNext(before, cs, 6, MediaVfeState(r.maxVfeThreads, r.scratchPerThread, r.hasScratch));
    bo.AppendNext(before, cs, 7, LoadRegisterImm(0x2580, 0x6_0000));
    bo.AppendNext(before, cs, 8, PipeControl(CS_STALL + TEXTURE_INVALIDATE + DC_FLUSH));
    bo.AppendNext(before, cs, 9, StateBaseAddress(r.bases));
    bo.AppendNext(before, cs, 10, StateSip(r.sip));
    bo.AppendNext(before, cs, 11, PipeControl(CS_STALL));
    bo.AppendNext(before, cs, 12, BatchBufferStart(taskAddress));
    StartAndEnd(bo, before, cs);
  }
}
