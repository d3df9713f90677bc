/**
  The DSi's AES engine (src/DSi_AES.cpp): a streaming CCM and CTR engine between two FIFOs of 16
  words. Words arrive and leave in any interleaving; blocks are processed as soon as four words
  are in and there is room for four words out.
*/
module AesEngines {
  import opened Ccm
  import opened AesTransfers

  class AesEngine {
    const cipher: Cipher

    // Cnt: bits 31, 29-28, 18-16, 20 and 21.
    var running: bool
    var mode: nat
    var macField: nat
    var macFromRegister: bool
    var macOk: bool

    // BlkCnt and the block counters.
    var extraCount: nat
    var blockCount: nat
    var remExtra: nat
    var remBlocks: nat

    var inputFifo: seq<Word>
    var outputFifo: seq<Word>
    var outputMac: Block
    var outputMacDue: bool

    var iv: Block
    var mac: Block
    var keyNormal: seq<Block>
    var curKey: Block
    var curMac: Block
    var ctxKey: Block
    var ctxIv: Block

    // The transfer that was started last, the words written for it, how many blocks of them
    // have been processed, and the words it has output.
    ghost var active: bool
    ghost var transfer: Transfer
    ghost var fed: seq<Word>
    ghost var count: nat
    ghost var produced: seq<Word>

    // The output FIFO at the start, and the words read since.
    ghost var before: seq<Word>
    ghost var read: seq<Word>

    // The tag a finished decryption was checked against, whether it came through the FIFO, and
    // whether bit 21 still tells about it.
    ghost var given: Block
    ghost var tagFed: bool
    ghost var judged: bool

    ghost function Done(): nat
      reads this`count, this`transfer
    {
      if count < transfer.extra then 0 else count - transfer.extra
    }

    ghost function Blocks(): seq<Block>
      requires 4 * count <= |fed|
      reads this`count, this`fed
    {
      BlocksOf(fed, count)
    }

    ghost predicate Counted()
      reads this`transfer, this`fed, this`count, this`inputFifo, this`outputFifo, this`read, this`before, this`produced
    {
      && transfer.Valid() && 4 * count <= |fed| && |inputFifo| <= FIFO_SIZE && |outputFifo| <= FIFO_SIZE
      && count <= transfer.extra + transfer.blocks
      && read + outputFifo == before + produced
    }

    // A transfer is under way: the engine's state is what the blocks so far call for.
    ghost predicate Streaming()
      reads this`transfer, this`fed, this`count, this`inputFifo, this`outputFifo, this`read, this`before, this`produced,
        this`outputMacDue, this`mode, this`macField, this`ctxKey, this`remExtra, this`remBlocks, this`ctxIv, this`curMac
    {
      && Counted() && !outputMacDue && inputFifo == fed[4 * count..]
      && mode == transfer.mode && macField == transfer.macField && ctxKey == transfer.key
      && remExtra == (if count < transfer.extra then transfer.extra - count else 0)
      && remBlocks == transfer.blocks - Done()
      && Computed(transfer, cipher, Blocks(), Done(), ctxIv, curMac, produced)
    }

    ghost predicate AllProcessed()
      reads this`remExtra, this`remBlocks
    {
      remExtra == 0 && remBlocks == 0
    }

    // Only a tag that is to come through the FIFO keeps a transfer waiting after its last block.
    ghost predicate Waiting()
      reads this`remExtra, this`remBlocks, this`mode, this`macFromRegister
    {
      AllProcessed() ==> mode == 0 && !macFromRegister
    }

    // A transfer has ended: all its blocks are processed and all its words are out or due, and
    // bit 21 tells whether a decryption's tag was the right one.
    ghost predicate Ended()
      reads this`transfer, this`fed, this`count, this`inputFifo, this`outputFifo, this`read, this`before, this`produced,
        this`outputMacDue, this`outputMac, this`judged, this`macOk, this`given, this`tagFed
    {
      Delivered() && Judged()
    }

    ghost predicate Delivered()
      reads this`transfer, this`fed, this`count, this`inputFifo, this`outputFifo, this`read, this`before, this`produced,
        this`outputMacDue, this`outputMac
    {
      && Counted() && count == transfer.extra + transfer.blocks && (outputMacDue ==> transfer.mode == 1)
      && produced + (if outputMacDue then Split(outputMac) else []) == transfer.Output(cipher, Blocks())
    }

    ghost predicate Judged()
      reads this`transfer, this`fed, this`count, this`judged, this`macOk, this`given, this`tagFed
    {
      && transfer.Valid() && 4 * count <= |fed|
      && (judged ==> (macOk <==> transfer.mode == 0 && Rev(transfer.TagOf(cipher, Blocks())) == given))
      && (tagFed ==> 4 * count + 4 <= |fed| && given == Join(fed[4 * count..4 * count + 4]))
    }

    ghost predicate Valid()
      reads this
    {
      && |inputFifo| <= FIFO_SIZE && |outputFifo| <= FIFO_SIZE && |keyNormal| == 4
      && mode < 4 && macField < 8 && extraCount < 0x1_0000 && blockCount < 0x1_0000
      && (running ==> active && Streaming() && Waiting())
      && (active && !running ==> Ended())
      && (!active ==> !outputMacDue)
    }

    // -------- blocks --------

    // AES_CTR_xcrypt_buffer for one block.
    method CtrCrypt(b: Block) returns (crypted: Block)
      modifies this`ctxIv
      ensures crypted == Xor(b, cipher(ctxKey, old(ctxIv))) && ctxIv == Inc(old(ctxIv))
    {
      crypted := Xor(b, cipher(ctxKey, ctxIv));
      ctxIv := Inc(ctxIv);
    }

    // The next four words; they are the next block of what was written.
    method TakeBlock() returns (data: Block)
      requires |inputFifo| >= 4 && 4 * count <= |fed| && inputFifo == fed[4 * count..]
      modifies this`inputFifo, this`count
      ensures inputFifo == old(inputFifo)[4..] && count == old(count) + 1
      ensures 4 * count <= |fed| && inputFifo == fed[4 * count..]
      ensures data == Join(old(inputFifo)[..4]) && Blocks() == old(Blocks()) + [data]
    {
      BlocksOfMore(fed, count);
      assert fed[4 * count..4 * count + 4] == inputFifo[..4];
      data := Join(inputFifo[..4]);
      inputFifo := inputFifo[4..];
      count := count + 1;
    }

    // Room for four words is what keeps the output FIFO from dropping any.
    method PutBlock(data: Block)
      requires |outputFifo| <= FIFO_SIZE - 4 && read + outputFifo == before + produced
      modifies this`outputFifo, this`produced
      ensures outputFifo == old(outputFifo) + Split(data) && produced == old(produced) + Split(data)
      ensures read + outputFifo == before + produced
    {
      outputFifo := outputFifo + Split(data);
      produced := produced + Split(data);
      assert read + outputFifo == (read + old(outputFifo)) + Split(data);
    }

    method ProcessExtra()
      requires Streaming() && |inputFifo| >= 4 && remExtra > 0
      modifies this`inputFifo, this`curMac, this`remExtra, this`count
      ensures Streaming() && |inputFifo| == old(|inputFifo|) - 4 && remExtra == old(remExtra) - 1
    {
      hide Xor, Rev, Join, Split, Computed, BlocksOf;
      ghost var blocks := Blocks();
      var data := TakeBlock();
      ExtraComputed(transfer, cipher, blocks, data, ctxIv, curMac, produced);
      curMac := Xor(curMac, Rev(data));
      curMac := cipher(ctxKey, curMac);
      remExtra := remExtra - 1;
    }

    method ProcessDecrypt(data: Block) returns (out: Block)
      modifies this`curMac, this`ctxIv
      ensures out == Xor(Rev(data), cipher(ctxKey, old(ctxIv))) && ctxIv == Inc(old(ctxIv))
      ensures curMac == cipher(ctxKey, Xor(old(curMac), out))
    {
      out := CtrCrypt(Rev(data));
      curMac := Xor(curMac, out);
      curMac := cipher(ctxKey, curMac);
    }

    method ProcessEncrypt(data: Block) returns (out: Block)
      modifies this`curMac, this`ctxIv
      ensures out == Xor(Rev(data), cipher(ctxKey, old(ctxIv))) && ctxIv == Inc(old(ctxIv))
      ensures curMac == cipher(ctxKey, Xor(old(curMac), Rev(data)))
    {
      curMac := Xor(curMac, Rev(data));
      out := CtrCrypt(Rev(data));
      curMac := cipher(ctxKey, curMac);
    }

    method ProcessByMode(data: Block) returns (out: Block)
      requires mode < 4
      modifies this`curMac, this`ctxIv
      ensures out == Xor(Rev(data), cipher(ctxKey, old(ctxIv))) && ctxIv == Inc(old(ctxIv))
      ensures mode < 2 ==> curMac == cipher(ctxKey, Xor(old(curMac), if mode == 1 then Rev(data) else out))
    {
      hide Xor, Rev, Inc;
      if mode == 0 {
        out := ProcessDecrypt(data);
      } else if mode == 1 {
        out := ProcessEncrypt(data);
      } else {
        out := CtrCrypt(Rev(data));
      }
    }

    // One payload block.
    method ProcessBlock()
      requires Streaming() && |inputFifo| >= 4 && |outputFifo| <= FIFO_SIZE - 4 && remExtra == 0 && remBlocks > 0
      modifies this`inputFifo, this`outputFifo, this`curMac, this`ctxIv, this`remBlocks, this`count, this`produced
      ensures Streaming() && |inputFifo| == old(|inputFifo|) - 4 && remBlocks == old(remBlocks) - 1
    {
      hide Xor, Rev, Join, Split, Computed, BlocksOf, Inc;
      ghost var ctxIv0, curMac0, blocks := ctxIv, curMac, Blocks();
      var data := TakeBlock();
      var out := ProcessByMode(data);
      PayloadComputed(transfer, cipher, blocks, data, ctxIv0, curMac0, curMac, produced, out);
      PutBlock(Rev(out));
      remBlocks := remBlocks - 1;
    }

    // -------- the end of a transfer --------

    // The tag: the authentication value under counter 0, truncated.
    method FinalMac()
      requires Streaming() && mode < 2
      modifies this`curMac, this`ctxIv
      ensures curMac == transfer.TagOf(cipher, Blocks())
    {
      hide Xor, Transfer.MacOf, Transfer.OutOf, Inc;
      CounterZero(transfer, Done());
      ctxIv := ctxIv[13 := 0][14 := 0][15 := 0];
      curMac := CtrCrypt(curMac);
      var maclen := macField * 2 + 2;
      if maclen < 4 {
        maclen := 4;
      }
      curMac := Pad(curMac, maclen);
    }

    // A tag that came through the FIFO is taken out of it, the MAC register is left alone.
    method CheckTag()
      requires Streaming() && mode == 0 && (!macFromRegister ==> |inputFifo| >= 4)
      modifies this`inputFifo, this`curMac, this`ctxIv, this`macOk, this`given
      ensures macOk <==> Rev(transfer.TagOf(cipher, Blocks())) == given
      ensures macFromRegister ==> given == mac && inputFifo == old(inputFifo)
      ensures !macFromRegister ==> 4 * count + 4 <= |fed| && given == Join(fed[4 * count..4 * count + 4])
      ensures |inputFifo| <= FIFO_SIZE
    {
      hide Xor, Join, Transfer.TagOf, Computed;
      assert !macFromRegister ==> inputFifo[..4] == fed[4 * count..4 * count + 4];
      FinalMac();
      var verifymac := mac;
      if !macFromRegister {
        verifymac := Join(inputFifo[..4]);
        inputFifo := inputFifo[4..];
      }
      macOk := TagsEqual(verifymac);
      given := verifymac;
    }

    method TagsEqual(verifymac: Block) returns (ok: bool)
      ensures ok <==> Rev(curMac) == verifymac
    {
      ok := true;
      for i := 0 to 16
        invariant ok <==> forall j | 0 <= j < i :: curMac[15 - j] == verifymac[j]
      {
        if curMac[15 - i] != verifymac[i] {
          ok := false;
        }
      }
      assert Rev(curMac) == verifymac <==> forall j | 0 <= j < 16 :: Rev(curMac)[j] == verifymac[j];
    }

    // A transfer whose blocks are all processed, and whose tag is there if it is to be read, ends.
    method Finish()
      requires Streaming() && AllProcessed() && mode < 4 && (mode == 0 && !macFromRegister ==> |inputFifo| >= 4)
      modifies this`inputFifo, this`outputFifo, this`curMac, this`ctxIv, this`macOk, this`given, this`running, this`produced,
        this`outputMac, this`outputMacDue, this`tagFed, this`judged
      ensures !running && Ended() && judged && tagFed == (mode == 0 && !macFromRegister)
      ensures mode == 0 && macFromRegister ==> given == mac
    {
      hide Streaming, Ended;
      if mode == 0 {
        FinishDecrypt();
      } else if mode == 1 {
        FinishEncrypt();
      } else {
        FinishCtr();
      }
    }

    method FinishDecrypt()
      requires Streaming() && AllProcessed() && mode == 0 && (!macFromRegister ==> |inputFifo| >= 4)
      modifies this`inputFifo, this`curMac, this`ctxIv, this`macOk, this`given, this`tagFed, this`judged, this`running
      ensures !running && Ended() && judged && tagFed == !macFromRegister && (macFromRegister ==> given == mac)
    {
      hide Split, Rev, Join, Transfer.TagOf, BlocksOf, Computed, Transfer.OutOf, Transfer.MacOf, Transfer.Rfc;
      TransferComputed(transfer, cipher, Blocks(), Done(), ctxIv, curMac, produced);
      CheckTag();
      tagFed, judged := !macFromRegister, true;
      running := false;
    }

    method FinishEncrypt()
      requires Streaming() && AllProcessed() && mode == 1
      modifies this`outputFifo, this`curMac, this`ctxIv, this`produced, this`outputMac, this`outputMacDue,
        this`macOk, this`tagFed, this`judged, this`running
      ensures !running && Ended() && judged && !tagFed
    {
      hide Split, Rev, Transfer.TagOf, BlocksOf, Computed, Transfer.OutOf, Transfer.MacOf, Transfer.Rfc;
      TransferComputed(transfer, cipher, Blocks(), Done(), ctxIv, curMac, produced);
      PutTag();
      macOk, tagFed, judged := false, false, true;
      running := false;
    }

    method FinishCtr()
      requires Streaming() && AllProcessed() && 2 <= mode < 4
      modifies this`macOk, this`tagFed, this`judged, this`running
      ensures !running && Ended() && judged && !tagFed
    {
      hide Split, Rev, BlocksOf, Computed, Transfer.OutOf, Transfer.MacOf, Transfer.Rfc;
      TransferComputed(transfer, cipher, Blocks(), Done(), ctxIv, curMac, produced);
      macOk, tagFed, judged := false, false, true;
      running := false;
    }

    // An encryption's tag goes out at once, or when there is room for it.
    method PutTag()
      requires Streaming() && mode == 1
      modifies this`outputFifo, this`curMac, this`ctxIv, this`produced, this`outputMac, this`outputMacDue
      ensures read + outputFifo == before + produced && |outputFifo| <= FIFO_SIZE
      ensures produced + (if outputMacDue then Split(outputMac) else [])
        == old(produced) + Split(Rev(transfer.TagOf(cipher, Blocks())))
    {
      hide Split, Rev, Transfer.TagOf, BlocksOf, Computed;
      FinalMac();
      outputMac := Rev(curMac);
      if |outputFifo| <= FIFO_SIZE - 4 {
        PutBlock(outputMac);
      } else {
        outputMacDue := true;
      }
    }

    /**
      Processes as many blocks as input and room allow. A transfer that goes on waits for input,
      or for room in the output FIFO.
    */
    method Update()
      requires Valid() && running
      modifies this`inputFifo, this`outputFifo, this`curMac, this`ctxIv, this`macOk, this`given, this`running, this`produced,
        this`outputMac, this`outputMacDue, this`tagFed, this`judged, this`remExtra, this`remBlocks, this`count
      ensures Valid() && Drained()
    {
      hide Streaming, Ended;
      StreamingBounds();
      while |inputFifo| >= 4 && remExtra > 0
        invariant Streaming() && running
      {
        ProcessExtra();
      }
      if remExtra == 0 {
        while |inputFifo| >= 4 && |outputFifo| <= FIFO_SIZE - 4 && remBlocks > 0
          invariant Streaming() && running && remExtra == 0
        {
          ProcessBlock();
        }
      }
      StreamingBounds();
      if remBlocks == 0 && remExtra == 0 {
        if mode == 0 && !macFromRegister && |inputFifo| < 4 {
          return;
        }
        Finish();
        EndedBounds();
      }
    }

    // A running transfer has nothing left to do but wait.
    ghost predicate Drained()
      reads this
    {
      running ==> |inputFifo| < 4 || (remExtra == 0 && |outputFifo| > FIFO_SIZE - 4)
    }

    lemma StreamingBounds()
      requires Streaming()
      ensures |inputFifo| <= FIFO_SIZE && |outputFifo| <= FIFO_SIZE
    {
    }

    lemma EndedBounds()
      requires Ended()
      ensures |inputFifo| <= FIFO_SIZE && |outputFifo| <= FIFO_SIZE
    {
    }

    // -------- the host's side --------

    /** A word written to the input FIFO, which must not be full. */
    method WriteInputFIFO(val: Word)
      requires Valid() && |inputFifo| < FIFO_SIZE
      modifies this`inputFifo, this`outputFifo, this`curMac, this`ctxIv, this`macOk, this`given, this`running, this`produced,
        this`outputMac, this`outputMacDue, this`tagFed, this`judged, this`remExtra, this`remBlocks, this`count, this`fed
      ensures Valid() && Drained() && fed == old(fed) + [val]
    {
      hide Split, Rev, Join, BlocksOf, Computed, Transfer.TagOf, Transfer.OutOf, Transfer.MacOf, Transfer.Rfc;
      ghost var was := fed;
      if active {
        BlocksOfPrefix(fed, fed + [val], count);
        assert tagFed && !running ==> (fed + [val])[4 * count..4 * count + 4] == fed[4 * count..4 * count + 4];
      }
      inputFifo := inputFifo + [val];
      fed := fed + [val];
      if running {
        Update();
      }
    }

    /** A word read from the output FIFO, which must not be empty. */
    method ReadOutputFIFO() returns (ret: Word)
      requires Valid() && |outputFifo| > 0
      modifies this`inputFifo, this`outputFifo, this`curMac, this`ctxIv, this`macOk, this`given, this`running, this`produced,
        this`outputMac, this`outputMacDue, this`tagFed, this`judged, this`remExtra, this`remBlocks, this`count, this`read
      ensures Valid() && ret == old(outputFifo[0]) && read == old(read) + [ret]
    {
      hide Split, Rev, Join, BlocksOf, Computed, Transfer.TagOf, Transfer.OutOf, Transfer.MacOf, Transfer.Rfc;
      ret := outputFifo[0];
      assert outputFifo == [ret] + outputFifo[1..];
      assert read + outputFifo == (read + [ret]) + outputFifo[1..];
      outputFifo := outputFifo[1..];
      read := read + [ret];
      if running {
        CheckInputDMA();
      } else if outputMacDue && |outputFifo| <= FIFO_SIZE - 4 {
        PutBlock(outputMac);
        outputMacDue := false;
      }
    }

    // Room has appeared: processing goes on.
    method CheckInputDMA()
      requires Valid() && running
      modifies this`inputFifo, this`outputFifo, this`curMac, this`ctxIv, this`macOk, this`given, this`running, this`produced,
        this`outputMac, this`outputMacDue, this`tagFed, this`judged, this`remExtra, this`remBlocks, this`count
      ensures Valid() && Drained()
    {
      if remBlocks == 0 && remExtra == 0 && (mode != 0 || macFromRegister) {
        return;
      }
      Update();
    }

    /**
      A control write may select a key, and start a transfer with what the input FIFO already
      holds, or stop the one that is running and leave the FIFOs as they are.
    */
    method WriteCnt(newMode: nat, newMacField: nat, fromRegister: bool, loadKey: bool, slot: nat, start: bool)
      requires Valid() && newMode < 4 && newMacField < 8 && slot < 4
      requires running && start ==> newMode == mode && newMacField == macField && fromRegister == macFromRegister
      modifies this
      ensures Valid() && keyNormal == old(keyNormal) && iv == old(iv) && mac == old(mac)
      ensures curKey == if loadKey then keyNormal[slot] else old(curKey)
      ensures !start ==> !running && active == old(active && !running) && inputFifo == old(inputFifo) && outputFifo == old(outputFifo)
      ensures old(running) || !start ==> produced == old(produced) && transfer == old(transfer)
      ensures start && old(running) ==> running && active && !macOk && fed == old(fed) && count == old(count) && read == old(read)
      ensures start && !old(running) ==> active == (blockCount > 0 || (newMode < 2 && extraCount > 0))
      ensures start && active && !old(running) ==>
        && transfer == Transfer(newMode, Rev(curKey), Rev(iv), if newMode < 2 then extraCount else 0, blockCount, newMacField)
        && fed == old(inputFifo) && before == old(outputFifo) && read == []
    {
      hide Valid, Streaming, Ended, Rev;
      if running {
        WriteRunning(newMode, newMacField, fromRegister, loadKey, slot, start);
      } else {
        SetCnt(newMode, newMacField, fromRegister, loadKey, slot);
        if start {
          Start();
        }
      }
    }

    // A running transfer has its own copy of the key. A stopped one is not taken up again.
    method WriteRunning(newMode: nat, newMacField: nat, fromRegister: bool, loadKey: bool, slot: nat, start: bool)
      requires Valid() && running && newMode < 4 && newMacField < 8 && slot < 4
      requires start ==> newMode == mode && newMacField == macField && fromRegister == macFromRegister
      modifies this`mode, this`macField, this`macFromRegister, this`macOk, this`judged, this`curKey, this`running, this`active
      ensures Valid() && running == active == start && (start ==> !macOk)
      ensures curKey == if loadKey then keyNormal[slot] else old(curKey)
    {
      hide *;
      ValidIsRunning();
      if loadKey {
        curKey := keyNormal[slot];
      }
      macOk, judged := false, false;
      if start {
        RunningIsValid();
      } else {
        mode, macField, macFromRegister := newMode, newMacField, fromRegister;
        running, active := false, false;
        InactiveIsValid();
      }
    }

    lemma ValidIsRunning()
      requires Valid() && running
      ensures active && Streaming() && Waiting() && !outputMacDue && |keyNormal| == 4
      ensures |inputFifo| <= FIFO_SIZE && |outputFifo| <= FIFO_SIZE
      ensures mode < 4 && macField < 8 && extraCount < 0x1_0000 && blockCount < 0x1_0000
    {
      hide Computed, BlocksOf;
    }

    lemma RunningIsValid()
      requires running && active && Streaming() && Waiting() && |keyNormal| == 4
      requires mode < 4 && macField < 8 && extraCount < 0x1_0000 && blockCount < 0x1_0000
      ensures Valid()
    {
      hide Computed, BlocksOf;
    }

    // The fields of a control write.
    method SetCnt(newMode: nat, newMacField: nat, fromRegister: bool, loadKey: bool, slot: nat)
      requires Valid() && !running && newMode < 4 && newMacField < 8 && slot < 4
      modifies this`mode, this`macField, this`macFromRegister, this`macOk, this`judged, this`curKey
      ensures Valid() && mode == newMode && macField == newMacField && macFromRegister == fromRegister
      ensures curKey == if loadKey then keyNormal[slot] else old(curKey)
    {
      hide *;
      ValidIsIdle();
      mode, macField, macFromRegister, macOk := newMode, newMacField, fromRegister, false;
      judged := false;
      if loadKey {
        curKey := keyNormal[slot];
      }
      IdleIsValid();
    }

    // What the invariant says between transfers, apart from what bit 21 tells.
    ghost predicate Idle()
      reads this`transfer, this`fed, this`count, this`inputFifo, this`outputFifo, this`read, this`before, this`produced,
        this`outputMacDue, this`outputMac, this`given, this`tagFed, this`keyNormal, this`extraCount, this`blockCount,
        this`running, this`active
    {
      && |inputFifo| <= FIFO_SIZE && |outputFifo| <= FIFO_SIZE && |keyNormal| == 4 && !running
      && extraCount < 0x1_0000 && blockCount < 0x1_0000
      && (active ==> Delivered())
      && (active && tagFed ==> 4 * count + 4 <= |fed| && given == Join(fed[4 * count..4 * count + 4]))
      && (!active ==> !outputMacDue)
    }

    lemma ValidIsIdle()
      requires Valid() && !running
      ensures Idle() && |keyNormal| == 4 && |inputFifo| <= FIFO_SIZE && |outputFifo| <= FIFO_SIZE
      ensures mode < 4 && macField < 8 && extraCount < 0x1_0000 && blockCount < 0x1_0000
    {
      hide Join, Transfer.TagOf, Transfer.Output, BlocksOf;
    }

    lemma IdleIsValid()
      requires Idle() && !judged && mode < 4 && macField < 8
      ensures Valid()
    {
      hide Join, Transfer.TagOf, Transfer.Output, BlocksOf;
    }

    lemma InactiveIsValid()
      requires !running && !active && !outputMacDue && |keyNormal| == 4 && |inputFifo| <= FIFO_SIZE && |outputFifo| <= FIFO_SIZE
      requires mode < 4 && macField < 8 && extraCount < 0x1_0000 && blockCount < 0x1_0000
      ensures Valid()
    {
      hide Streaming, Ended;
    }

    // What a start is for: without any blocks it is over at once.
    method Start()
      requires Valid() && !running
      modifies this`inputFifo, this`outputFifo, this`curMac, this`ctxIv, this`macOk, this`given, this`running, this`produced,
        this`outputMac, this`outputMacDue, this`tagFed, this`judged, this`remExtra, this`remBlocks, this`count,
        this`ctxKey, this`active, this`transfer, this`fed, this`before, this`read
      ensures Valid() && active == (blockCount > 0 || (mode < 2 && extraCount > 0))
      ensures active ==> transfer == Transfer(mode, Rev(curKey), Rev(iv), if mode < 2 then extraCount else 0, blockCount, macField)
      ensures active ==> fed == old(inputFifo) && before == old(outputFifo) && read == []
    {
      hide *;
      ValidIsIdle();
      LoadCounters();
      if remBlocks > 0 || remExtra > 0 {
        Begin();
        RunningIsValid();
        if mode == 0 && !macFromRegister {
          Update();
        }
      } else {
        active := false;
        InactiveIsValid();
      }
    }

    method LoadCounters()
      modifies this`remExtra, this`remBlocks, this`outputMacDue
      ensures remExtra == (if mode < 2 then extraCount else 0) && remBlocks == blockCount && !outputMacDue
    {
      hide *;
      remExtra := if mode < 2 then extraCount else 0;
      remBlocks := blockCount;
      outputMacDue := false;
    }

    // The key, the counter and the first authenticated block of a transfer.
    method Begin()
      requires mode < 4 && macField < 8 && extraCount < 0x1_0000 && blockCount < 0x1_0000 && !outputMacDue
      requires remExtra == (if mode < 2 then extraCount else 0) && remBlocks == blockCount && (remBlocks > 0 || remExtra > 0)
      requires |inputFifo| <= FIFO_SIZE && |outputFifo| <= FIFO_SIZE
      modifies this`running, this`ctxKey, this`ctxIv, this`curMac, this`active, this`transfer, this`fed, this`count, this`produced,
        this`before, this`read, this`tagFed
      ensures running && active && Streaming() && Waiting()
      ensures transfer == Transfer(mode, Rev(curKey), Rev(iv), remExtra, blockCount, macField)
      ensures fed == inputFifo && before == outputFifo && read == []
    {
      hide *;
      StartedTransferOk();
      Track(Transfer(mode, Rev(curKey), Rev(iv), remExtra, blockCount, macField));
      BeginContext();
      running := true;
      FreshIsStreaming();
    }

    // A new transfer's record.
    ghost method Track(t: Transfer)
      modifies this`active, this`transfer, this`fed, this`count, this`produced, this`before, this`read, this`tagFed
      ensures active && !tagFed && transfer == t && count == 0
      ensures fed == inputFifo && produced == [] && before == outputFifo && read == []
    {
      hide *;
      active, tagFed, transfer, count := true, false, t, 0;
      fed, produced, before, read := inputFifo, [], outputFifo, [];
    }

    lemma StartedTransferOk()
      requires mode < 4 && macField < 8 && extraCount < 0x1_0000 && blockCount < 0x1_0000
      requires remExtra == (if mode < 2 then extraCount else 0) && remBlocks == blockCount && (remBlocks > 0 || remExtra > 0)
      ensures Transfer(mode, Rev(curKey), Rev(iv), remExtra, blockCount, macField).Valid() && Waiting()
    {
    }

    lemma FreshIsStreaming()
      requires transfer.Valid() && mode == transfer.mode && macField == transfer.macField && remExtra == transfer.extra
      requires remBlocks == transfer.blocks && ctxKey == transfer.key && !outputMacDue
      requires Computed(transfer, cipher, [], 0, ctxIv, curMac, [])
      requires fed == inputFifo && count == 0 && produced == [] && before == outputFifo && read == []
      requires |inputFifo| <= FIFO_SIZE && |outputFifo| <= FIFO_SIZE
      ensures Streaming()
    {
      hide Computed, BlocksOf;
      NoBlocks(fed);
      assert fed[4 * count..] == fed && read + outputFifo == outputFifo && before + produced == before;
    }

    method BeginContext()
      requires transfer.Valid() && mode == transfer.mode && macField == transfer.macField && remExtra == transfer.extra
      requires transfer.key == Rev(curKey) && transfer.iv == Rev(iv) && remBlocks == transfer.blocks
      modifies this`ctxKey, this`ctxIv, this`curMac
      ensures ctxKey == transfer.key && Computed(transfer, cipher, [], 0, ctxIv, curMac, [])
    {
      hide Rev, CounterAt, StartCounter, StartMacBlock, Transfer.Rfc, Ccm.FirstBlock, Ccm.CounterBlock;
      ctxKey := Rev(curKey);
      if mode < 2 {
        var maclen := if macField < 1 then 1 else macField;
        StartIsCcm(transfer);
        ctxIv := StartCounter(Rev(iv));
        curMac := StartMacBlock(Rev(iv), maclen, remExtra > 0, remBlocks);
        curMac := cipher(ctxKey, curMac);
      } else {
        ctxIv := Rev(iv);
        CounterStart(ctxIv);
      }
    }

    method WriteBlkCnt(val: nat)
      requires Valid() && val < 0x1_0000_0000
      modifies this`extraCount, this`blockCount
      ensures Valid() && extraCount == val % 0x1_0000 && blockCount == val / 0x1_0000
    {
      hide Streaming, Ended;
      extraCount, blockCount := val % 0x1_0000, val / 0x1_0000;
    }

    // The registers can be written at any time: a transfer has copied what it needs of them,
    // but for the tag to check.
    method WriteRegisters(newIv: Block, newMac: Block, slot: nat, key: Block)
      requires Valid() && slot < 4
      modifies this`iv, this`mac, this`keyNormal
      ensures Valid() && iv == newIv && mac == newMac && keyNormal == old(keyNormal)[slot := key]
    {
      hide Streaming, Ended;
      iv, mac, keyNormal := newIv, newMac, keyNormal[slot := key];
    }

    constructor (cipher: Cipher)
      ensures Valid() && !running && !active && this.cipher == cipher && inputFifo == [] && outputFifo == []
    {
      var zero: Block := seq(16, _ => 0);
      this.cipher := cipher;
      running, mode, macField, macFromRegister, macOk := false, 0, 0, false, false;
      extraCount, blockCount, remExtra, remBlocks := 0, 0, 0, 0;
      inputFifo, outputFifo, outputMac, outputMacDue := [], [], zero, false;
      iv, mac, keyNormal, curKey, curMac := zero, zero, [zero, zero, zero, zero], zero, zero;
      ctxKey, ctxIv := zero, zero;
      active, transfer, fed, count, produced := false, Transfer(0, zero, zero, 0, 0, 0), [], 0, [];
      before, read, given, tagFed, judged := [], [], zero, false, false;
    }

    // -------- runs --------

    /**
      In every state, the words read since the start are a prefix of the earlier output followed
      by the whole transfer's output, for any way the input stream goes on.
    */
    lemma ReadIsPrefix(stream: seq<Word>)
      requires Valid() && active && fed <= stream && 4 * (transfer.extra + transfer.blocks) <= |stream|
      ensures read <= before + transfer.Output(cipher, BlocksOf(stream, transfer.extra + transfer.blocks))
    {
      hide Split, Rev, Join, Transfer.TagOf, Transfer.OutOf, Transfer.MacOf, Transfer.Rfc;
      var n := transfer.extra + transfer.blocks;
      BlocksOfPrefix(fed, stream, count);
      var all := BlocksOf(stream, n);
      assert all[..count] == Blocks();
      if running {
        TransferComputed(transfer, cipher, Blocks(), Done(), ctxIv, curMac, produced);
        OutOfPrefix(transfer, cipher, all, count);
      } else {
        assert all == Blocks();
      }
      assert read <= before + produced;
    }

    /** Once all input is written and the output read, the transfer has ended with all its words read. */
    lemma Completes()
      requires Valid() && active && Drained() && outputFifo == [] && !outputMacDue
      requires 4 * (transfer.extra + transfer.blocks) + (if mode == 0 && !macFromRegister then 4 else 0) <= |fed|
      ensures !running && read == before + transfer.Output(cipher, Blocks())
    {
      hide Split, Rev, Join, BlocksOf, Transfer.TagOf, Transfer.OutOf, Transfer.MacOf, Transfer.Rfc;
      assert running ==> |inputFifo| == |fed| - 4 * count;
      assert read + outputFifo == read && produced + [] == produced;
    }

    /**
      A decryption that is fed the output of an encryption under the same key, IV and lengths
      gives back what was encrypted, and sets bit 21.
    */
    lemma DecryptionReturns(e: Transfer, original: seq<Block>)
      requires Valid() && active && !running && judged && tagFed
      requires e.Valid() && e.mode == 1 && transfer == e.(mode := 0) && |original| == e.extra + e.blocks
      requires Raw(original[..e.extra]) + e.Output(cipher, original) <= fed
      ensures macOk && produced == Raw(original[e.extra..])
    {
      hide Split, Join, BlocksOf, Transfer.TagOf, Transfer.OutOf, Transfer.MacOf, Transfer.Rfc, Raw, Rev, Returned;
      var words, n := Raw(original[..e.extra]) + e.Output(cipher, original), |original|;
      ReturnedWords(e, cipher, original);
      RoundTrip(e, cipher, original);
      BlocksOfPrefix(words, fed, n);
      assert fed[4 * n..4 * n + 4] == words[4 * n..];
      assert produced + [] == produced;
    }
  }
}
