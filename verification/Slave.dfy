/** `modbus_read_device` against slaves that answer the frames they are sent from registers of their own. */
module Slave {
  import opened ModbusCrc
  import opened Frames
  import opened Types
  import opened ModbusMaster
  import opened Exchange

  /** The holding registers of all slaves on the line. */
  type Bank = (bv8, bv16) -> bv16

  /** The response of the slave that a frame addresses: that of its register, if the frame is a request for one. */
  function Served(bank: Bank, f: Bytes): (r: Option<Bytes>)
    ensures r.Some? ==> |f| == 8
  {
    if |f| == 8 && Crc(f) == 0 && f[1] == 0x03 && Join(f[4], f[5]) == 1
    then Some(Reply(f[0], bank(f[0], Join(f[2], f[3]))))
    else None
  }

  /** What arrives after `f` was sent is the addressed slave's response, or nothing if there is none. */
  ghost predicate Serves(bank: Bank, f: Bytes, rx: Chunks) {
    match Served(bank, f)
    case Some(r) => Answers(rx, f[0], r)
    case None => rx == []
  }

  /** Every frame of `sent` is served. */
  ghost predicate ServesAll(bank: Bank, sent: seq<Bytes>, script: seq<Chunks>) {
    forall i | 0 <= i < |sent| :: Serves(bank, sent[i], AnswerTo(script, i))
  }

  function Held(bank: Bank, regs: seq<RegMap>): (values: seq<bv16>)
    ensures |values| == |regs|
    ensures forall i | 0 <= i < |regs| :: values[i] == bank(regs[i].slaveAddr, regs[i].regStart)
  {
    seq(|regs|, i requires 0 <= i < |regs| => bank(regs[i].slaveAddr, regs[i].regStart))
  }

  lemma RequestServed(bank: Bank, m: RegMap)
    ensures Served(bank, AskFor(m)) == Some(Reply(m.slaveAddr, bank(m.slaveAddr, m.regStart)))
    ensures AskFor(m) != [] && AskFor(m)[0] == m.slaveAddr
  {
    hide Crc, Join, Request, Reply;
    RequestCarries(m.slaveAddr, m.regStart, 1);
  }

  lemma EntryAnswered(bank: Bank, m: RegMap, rx: Chunks)
    requires Serves(bank, AskFor(m), rx)
    ensures Answers(rx, m.slaveAddr, Reply(m.slaveAddr, bank(m.slaveAddr, m.regStart)))
  {
    hide Crc, Join, Request, Reply, Served, Answers;
    RequestServed(bank, m);
  }

  lemma SentAre(regs: seq<RegMap>, n: nat, i: nat)
    requires i < n <= |regs|
    ensures Asked(regs[..n])[i] == AskFor(regs[i])
  {
  }

  lemma EntryServed(bank: Bank, regs: seq<RegMap>, n: nat, script: seq<Chunks>, i: nat)
    requires i < n <= |regs| && ServesAll(bank, Asked(regs[..n]), script)
    ensures i < |script|
    ensures Answers(script[i], regs[i].slaveAddr, Reply(regs[i].slaveAddr, Held(bank, regs)[i]))
    ensures AllFound(regs, script)[i].Raw?
  {
    hide Serves, Crc, Request, Found, AskFor, Reply;
    SentAre(regs, n, i);
    EntryAnswered(bank, regs[i], AnswerTo(script, i));
    ReplyFound(regs[i], AnswerTo(script, i), Held(bank, regs)[i]);
  }

  /** Requests stop before the end only at one that fails. */
  lemma {:induction false} StopsAtFailure(found: seq<Register>)
    requires RequestCount(found) < |found|
    ensures RequestCount(found) > 0 && found[RequestCount(found) - 1].Bad?
  {
    if !found[0].Bad? {
      StopsAtFailure(found[1..]);
    }
  }

  lemma AllAsked(bank: Bank, regs: seq<RegMap>, script: seq<Chunks>, n: nat)
    requires n == RequestCount(AllFound(regs, script)) && n <= |regs| && ServesAll(bank, Asked(regs[..n]), script)
    ensures n == |regs|
  {
    hide *;
    if n < |regs| {
      StopsAtFailure(AllFound(regs, script));
      EntryServed(bank, regs, n, script, n - 1);
    }
  }

  lemma AllServed(bank: Bank, regs: seq<RegMap>, script: seq<Chunks>, n: nat)
    requires n == RequestCount(AllFound(regs, script)) && n <= |regs| && ServesAll(bank, Asked(regs[..n]), script)
    ensures Replies(regs, script, Held(bank, regs))
  {
    AllAsked(bank, regs, script, n);
    hide ServesAll, Answers, Reply, AskFor, AllFound, RequestCount, Asked;
    forall i: nat | i < |regs|
      ensures i < |script|
      ensures Answers(script[i], regs[i].slaveAddr, Reply(regs[i].slaveAddr, Held(bank, regs)[i]))
    {
      EntryServed(bank, regs, n, script, i);
    }
    if |regs| > 0 {
      EntryServed(bank, regs, n, script, n - 1);
    }
  }

  /** The record that was read holds the registers of the slaves. */
  ghost predicate ReadsBank(bank: Bank, regs: seq<RegMap>, devId: bv8, result: (Error, Device)) {
    && result.0 == ErrOk
    && result.1.online && result.1.id == devId && result.1.name == "" && result.1.ts == 0
    && HoldsLast(result.1, regs, Held(bank, regs))
  }

  lemma RepliesRead(bank: Bank, regs: seq<RegMap>, script: seq<Chunks>, devId: bv8)
    requires Replies(regs, script, Held(bank, regs))
    ensures RequestCount(AllFound(regs, script)) == |regs|
    ensures ReadsBank(bank, regs, devId, ReadAll(regs, AllFound(regs, script), CLEARED.(id := devId)))
  {
    hide RequestCount, AllFound, ReadAll, HoldsLast, Replies;
    DeviceRoundTrip(regs, script, Held(bank, regs), devId);
  }

  /** If every frame that goes out is served, then every entry of the map is asked for, and each field ends as the
      register that the last entry naming it maps. */
  lemma SlaveRoundTrip(bank: Bank, regs: seq<RegMap>, script: seq<Chunks>, devId: bv8, sent: nat)
    requires sent == RequestCount(AllFound(regs, script)) && sent <= |regs|
    requires ServesAll(bank, Asked(regs[..sent]), script)
    ensures sent == |regs|
    ensures ReadsBank(bank, regs, devId, ReadAll(regs, AllFound(regs, script), CLEARED.(id := devId)))
  {
    hide *;
    AllServed(bank, regs, script, sent);
    RepliesRead(bank, regs, script, devId);
  }
}
