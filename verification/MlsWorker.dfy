/** The MLS part of GuiConnectionWorker as the object it is: handlers that change the maps of
    groups and pending operations in place and hand packets to the connection. Each is
    proved against the transition of `MlsProtocol` that the protocol theorems are about. */
module MlsWorker {
  import opened MlsTables
  import opened MlsProtocol

  class GuiConnectionWorker {
    const userCode: Code
    var mlsGroups: map<GroupId, GroupState>
    var pendingMlsOperations: map<CommandId, Operation>
    var outbox: set<Packet>
    ghost var issued: map<CommandId, Operation>

    ghost function AsClient(): Client
      reads this
    {
      Client(mlsGroups, pendingMlsOperations, issued)
    }

    constructor (userCode: Code)
      ensures this.userCode == userCode && AsClient() == NEW_CLIENT && outbox == {}
    {
      this.userCode := userCode;
      mlsGroups, pendingMlsOperations, outbox, issued := map[], map[], {}, map[];
    }

    /** The operation is entered before the send and erased when the send fails. */
    method LaunchOperation(cmd: CommandId, op: Operation, sent: bool)
      requires cmd !in pendingMlsOperations
      modifies this
      ensures AsClient() == Launch(old(AsClient()), userCode, cmd, op, sent).0
      ensures outbox == old(outbox) + Launch(old(AsClient()), userCode, cmd, op, sent).1
    {
      ghost var before := pendingMlsOperations;
      pendingMlsOperations := pendingMlsOperations[cmd := op];
      issued := issued[cmd := op];
      if sent {
        outbox := outbox + {ProposalPacket(userCode, cmd, op)};
      } else {
        pendingMlsOperations := pendingMlsOperations - {cmd};
        assert pendingMlsOperations == before;
      }
    }

    method AddMember(cmd: CommandId, room: Room, g: GroupId, target: Code,
                     proposal: Payload, commit: Payload, welcome: Payload, sent: bool)
      modifies this
      ensures AsClient() == StartAdd(old(AsClient()), userCode, cmd, room, g, target, proposal, commit, welcome, sent).0
      ensures outbox == old(outbox) +
        StartAdd(old(AsClient()), userCode, cmd, room, g, target, proposal, commit, welcome, sent).1
    {
      if room == "" || g == "" || target == "" { return; }
      if g !in mlsGroups {
        mlsGroups := mlsGroups[g := GroupState(room, 0, map[], map[])];
      } else if mlsGroups[g].room != room {
        return;
      }
      if proposal == "" || commit == "" || welcome == "" { return; }
      if mlsGroups[g].epoch >= MAX_U64 { return; }
      var epoch := mlsGroups[g].epoch + 1;
      if cmd == "" || cmd in pendingMlsOperations { return; }
      LaunchOperation(cmd, Operation(ProposalPhase, room, g, target, epoch, proposal, commit, welcome, true), sent);
    }

    method RemoveMember(cmd: CommandId, room: Room, g: GroupId, target: Code,
                        proposal: Payload, commit: Payload, sent: bool)
      modifies this
      ensures AsClient() == StartRemove(old(AsClient()), userCode, cmd, room, g, target, proposal, commit, sent).0
      ensures outbox == old(outbox) +
        StartRemove(old(AsClient()), userCode, cmd, room, g, target, proposal, commit, sent).1
    {
      if room == "" || g == "" || target == "" || g !in mlsGroups { return; }
      if mlsGroups[g].room != room { return; }
      if proposal == "" || commit == "" { return; }
      if mlsGroups[g].epoch >= MAX_U64 { return; }
      var epoch := mlsGroups[g].epoch + 1;
      if cmd == "" || cmd in pendingMlsOperations { return; }
      LaunchOperation(cmd, Operation(ProposalPhase, room, g, target, epoch, proposal, commit, "", false), sent);
    }

    /** processMlsMessage. */
    method ProcessMessage(incoming: Reply, libraryOk: bool, sent: bool)
      modifies this
      ensures AsClient() == Receive(old(AsClient()), userCode, incoming, libraryOk, sent).0
      ensures outbox == old(outbox) + Receive(old(AsClient()), userCode, incoming, libraryOk, sent).1
    {
      match incoming {
        case ProposalAck(cmd) =>
          if cmd !in pendingMlsOperations || pendingMlsOperations[cmd].phase != ProposalPhase { return; }
          var packet := CommitPacket(userCode, cmd, pendingMlsOperations[cmd]);
          if sent {
            pendingMlsOperations := pendingMlsOperations[cmd := pendingMlsOperations[cmd].(phase := CommitPhase)];
            outbox := outbox + {packet};
          } else {
            pendingMlsOperations := pendingMlsOperations - {cmd};
          }
        case CommitAck(cmd) =>
          if cmd !in pendingMlsOperations || pendingMlsOperations[cmd].phase != CommitPhase { return; }
          var op := pendingMlsOperations[cmd];
          if op.group !in mlsGroups {
            pendingMlsOperations := pendingMlsOperations - {cmd};
            return;
          }
          var gs := mlsGroups[op.group];
          gs := gs.(epoch := op.epoch, commits := Emplace(gs.commits, op.epoch, op.commit));
          mlsGroups := mlsGroups[op.group := gs];
          if op.add && sent {
            pendingMlsOperations := pendingMlsOperations[cmd := op.(phase := WelcomePhase)];
            outbox := outbox + {WelcomePacket(userCode, cmd, op)};
          } else {
            pendingMlsOperations := pendingMlsOperations - {cmd};
          }
        case WelcomeAck(cmd) =>
          if cmd !in pendingMlsOperations || pendingMlsOperations[cmd].phase != WelcomePhase { return; }
          var op := pendingMlsOperations[cmd];
          if op.group in mlsGroups {
            var gs := mlsGroups[op.group];
            mlsGroups := mlsGroups[op.group := gs.(welcomes := Emplace(gs.welcomes, op.epoch, op.welcome))];
          }
          pendingMlsOperations := pendingMlsOperations - {cmd};
        case AcceptAck(_) => return;
        case ProposalRelay(_, _, _, _, _) => return;
        case ErrorReply(cmd) =>
          pendingMlsOperations := pendingMlsOperations - {cmd};
        case CommitRelay(g, room, e, commit) =>
          if commit == "" || g !in mlsGroups || mlsGroups[g].room != room { return; }
          var gs := mlsGroups[g];
          if e in gs.commits && gs.commits[e] == commit { return; }
          if e != gs.epoch + 1 { return; }
          if !libraryOk { return; }
          mlsGroups := mlsGroups[g := gs.(epoch := e, commits := Emplace(gs.commits, e, commit))];
        case WelcomeRelay(g, room, e, target, pid, welcome) =>
          if welcome == "" || (target != "" && target != userCode) { return; }
          var accept := if pid != "" && sent then {AcceptPacket(userCode, g, room, e, pid, welcome)} else {};
          if g in mlsGroups {
            var gs := mlsGroups[g];
            if gs.room == room && e in gs.welcomes && gs.welcomes[e] == welcome { outbox := outbox + accept; }
            return;
          }
          if !libraryOk { return; }
          mlsGroups := mlsGroups[g := GroupState(room, e, map[], map[e := welcome])];
          outbox := outbox + accept;
      }
    }

    /** resumePendingMlsOperations: one pass over the pending operations. */
    method ResumePending(taken: set<CommandId>)
      modifies this
      ensures AsClient() == Resume(old(AsClient()), userCode, taken).0
      ensures outbox == old(outbox) + Resume(old(AsClient()), userCode, taken).1
    {
      ghost var before, sentBefore := pendingMlsOperations, outbox;
      var todo := pendingMlsOperations.Keys;
      while todo != {}
        invariant todo <= before.Keys
        invariant mlsGroups == old(mlsGroups) && issued == old(issued)
        invariant pendingMlsOperations == Kept(before, todo)
        invariant outbox == sentBefore + ResumePackets(before, userCode, taken * (before.Keys - todo))
        decreases todo
      {
        var cmd :| cmd in todo;
        var op := pendingMlsOperations[cmd];
        KeptOneMore(before, todo, cmd);
        if op.phase == WelcomePhase {
          pendingMlsOperations := pendingMlsOperations - {cmd};
        } else if cmd in taken {
          outbox := outbox + {ResumePacket(userCode, cmd, op)};
        }
        ResumeOneMore(before, userCode, taken, todo, cmd);
        todo := todo - {cmd};
      }
      assert taken * (before.Keys - todo) == taken * before.Keys;
      assert ResumePackets(before, userCode, taken * before.Keys) == ResumePackets(before, userCode, taken);
    }

    method ResetMlsState()
      modifies this
      ensures AsClient() == Reset(old(AsClient())) && outbox == old(outbox)
    {
      mlsGroups, pendingMlsOperations := map[], map[];
    }
  }

  /** The operations that are still pending when those of `todo` are not yet visited. */
  ghost function Kept(pending: map<CommandId, Operation>, todo: set<CommandId>): map<CommandId, Operation> {
    map cmd | cmd in pending && (cmd in todo || pending[cmd].phase != WelcomePhase) :: pending[cmd]
  }

  lemma KeptOneMore(pending: map<CommandId, Operation>, todo: set<CommandId>, cmd: CommandId)
    requires cmd in todo && todo <= pending.Keys
    ensures cmd in Kept(pending, todo) && Kept(pending, todo)[cmd] == pending[cmd]
    ensures Kept(pending, todo - {cmd}) ==
            if pending[cmd].phase == WelcomePhase then Kept(pending, todo) - {cmd} else Kept(pending, todo)
  {
  }

  /** One more operation of the pass. */
  lemma ResumeOneMore(pending: map<CommandId, Operation>, me: Code, taken: set<CommandId>,
                      todo: set<CommandId>, cmd: CommandId)
    requires cmd in todo && todo <= pending.Keys
    ensures ResumePackets(pending, me, taken * (pending.Keys - (todo - {cmd})))
         == ResumePackets(pending, me, taken * (pending.Keys - todo))
            + (if pending[cmd].phase != WelcomePhase && cmd in taken then {ResumePacket(me, cmd, pending[cmd])} else {})
  {
  }
}
