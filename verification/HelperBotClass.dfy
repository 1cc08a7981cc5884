/**
 The classes MQTTHelperBot and CommandDto (bumper/mqtt/helper_bot.py).  send_command_plain is cut at
 its awaits; each piece, and each handler, is a step of the machine in HelperBot.dfy.
 */
module HelperBotClass {
  import opened Results
  import opened Text
  import opened TtlCache
  import opened HelperTopics
  import opened HelperBot

  class CommandDto {
    const payloadType: string
    var response: Option<string>
    var event: bool

    // The coroutine that waits for this object, and when it was created.
    ghost const id: string
    ghost const number: nat
    ghost const sent: nat
    ghost const registered: real
    ghost var phase: Phase

    constructor (payloadType: string, ghost id: string, ghost number: nat, ghost sent: nat, ghost registered: real)
      ensures this.payloadType == payloadType && this.number == number && response == None && !event
      ensures Running() == Call(id, payloadType, sent, registered, None, Publishing)
    {
      this.payloadType, response, event := payloadType, None, false;
      this.id, this.number, this.sent, this.registered, phase := id, number, sent, registered, Publishing;
    }

    ghost function Running(): Call
      reads this
    {
      Call(id, payloadType, sent, registered, response, phase)
    }

    method AddResponse(response: string)
      modifies this`response, this`event
      ensures Running() == old(Running()).(response := Some(response)) && event
    {
      this.response := Some(response);
      event := true;
    }

    /**
     What follows the wait for the event.  Nothing of the response is lost or changed, unless json.loads
     raises, which gives None; only a JSON object is handed over decoded.
     */
    method WaitForResponse(cfg: Config) returns (reply: Option<Reply>)
      requires event && response.Some?
      ensures reply == None <==> payloadType == "j" && cfg.json(response.value) == IsInvalid
      ensures reply.Some? ==> reply.value.Content() == response.value
      ensures reply.Some? && reply.value.Object? <==> payloadType == "j" && cfg.json(response.value) == IsObject
      ensures reply == Render(cfg, payloadType, response.value)
    {
      if payloadType == "j" {
        match cfg.json(response.value) {
          case IsObject => return Some(Object(response.value));
          case IsInvalid => return None;
          case IsOther =>
        }
      }
      reply := Some(Reply.Text(response.value));
    }
  }

  ghost function Number(dto: CommandDto): nat {
    dto.number
  }

  class MQTTHelperBot {
    const cfg: Config
    var commands: Cache<CommandDto>
    var clock: real

    // Every CommandDto there has been, and the number of steps so far.
    ghost var issued: seq<CommandDto>
    ghost var steps: nat

    ghost predicate Valid()
      reads this, issued
    {
      && (forall k :: 0 <= k < |issued| ==> issued[k].number == k && issued[k].event == issued[k].response.Some?)
      && (forall id :: id in commands.items ==> commands.items[id].value in issued)
    }

    ghost function View(): State
      reads this, issued
    {
      State(clock, steps, Cached(MapValues(commands, Number)),
            seq(|issued|, k requires 0 <= k < |issued| reads this, issued => issued[k].Running()))
    }

    constructor (cfg: Config)
      ensures Valid() && View() == State(0.0, 0, NO_COMMANDS, []) && this.cfg == cfg
    {
      this.cfg, commands, clock := cfg, Empty(), 0.0;
      issued, steps := [], 0;
      new;
      assert MapValues(commands, Number) == Empty<nat>();
    }

    /** send_command_plain up to the publishing of the topic; no object when the cache refuses it. */
    method Send(cmd: Command) returns (topic: string, dto: Option<CommandDto>)
      requires Valid()
      modifies this
      ensures Valid() && View() == Step(cfg, old(View()), HelperBot.Send(cmd.requestId, cmd.payloadType))
      ensures topic == cmd.CreateTopic()
      ensures dto.Some? ==> fresh(dto.value) && issued == old(issued) + [dto.value]
    {
      ghost var s := View();
      topic := cmd.CreateTopic();
      var d := Create(cmd);
      var stored := Register(d, cmd.requestId);
      if stored {
        dto := Some(d);
      } else {
        Refuse(d);
        dto := None;
      }
      assert View() == Apply(cfg, s, HelperBot.Send(cmd.requestId, cmd.payloadType));
      Advance();
    }

    /** self._commands[request_id] = command_dto; false when the cache raises. */
    method Register(d: CommandDto, requestId: string) returns (stored: bool)
      requires Valid() && d in issued
      modifies this`commands
      ensures Valid()
      ensures var r := HelperBot.Register(cfg, old(View()).store, requestId, d.number, clock);
              stored == r.Some? && View() == if r.Some? then old(View()).(store := r.value) else old(View())
    {
      InsertMapped(commands, Number, requestId, d, clock, cfg.MaxSize(), cfg.Ttl());
      var inserted := Insert(commands, requestId, d, clock, cfg.MaxSize(), cfg.Ttl());
      stored := inserted.Some?;
      if stored {
        InsertStores(commands, requestId, d, clock, cfg.MaxSize(), cfg.Ttl());
        commands := inserted.value;
      }
    }

    ghost method Advance()
      requires Valid()
      modifies this`steps
      ensures Valid() && View() == old(View()).(steps := old(View()).steps + 1)
    {
      steps := steps + 1;
    }

    /** The exception of the cache ends the newest command at once. */
    ghost method Refuse(d: CommandDto)
      requires Valid() && d in issued && d.number == |issued| - 1
      modifies d`phase
      ensures Valid()
      ensures var s := old(View());
              View() == s.(calls := s.calls[..|s.calls| - 1] + [old(d.Running()).(phase := Exited(None))])
    {
      d.phase := Exited(None);
    }

    /** A new CommandDto, not yet in the cache. */
    method Create(cmd: Command) returns (d: CommandDto)
      requires Valid()
      modifies this`issued
      ensures Valid() && fresh(d) && d.number == |old(issued)| && issued == old(issued) + [d]
      ensures var s := old(View());
              d.Running() == Call(cmd.requestId, cmd.payloadType, s.steps, s.now, None, Publishing)
              && View() == s.(calls := s.calls + [d.Running()])
    {
      d := new CommandDto(cmd.payloadType, cmd.requestId, |issued|, steps, clock);
      issued := issued + [d];
    }

    method OnMessage(topic: string, payload: string) returns (handling: Handling)
      requires Valid()
      modifies this`commands, this`steps, issued
      ensures Valid() && issued == old(issued) && View() == Step(cfg, old(View()), Message(topic, payload))
      ensures handling == Handle(topic, old(set id | id in commands.items && Fresh(commands.items[id], clock)))
    {
      var parts := Split(topic, '/');
      if |parts| <= 1 {
        handling := Fail;
      } else if parts[1] == "p2p" {
        if |parts| <= 10 {
          handling := Fail;
        } else {
          var found := AddResponse(parts[10], payload);
          handling := if found then Answer(parts[10]) else Ignore;
        }
      } else {
        handling := HandleReport(parts);
      }
      Advance();
    }

    /** Hands the payload to the command that is registered under the id, if there is one. */
    method AddResponse(requestId: string, payload: string) returns (found: bool)
      requires Valid()
      modifies this`commands, issued
      ensures Valid() && found == old(requestId in commands.items && Fresh(commands.items[requestId], clock))
      ensures View() == Hand(old(View()), requestId, payload)
    {
      OperationsMapped(commands, Number, requestId, clock);
      var dto := Lookup(commands, requestId, clock);
      found := dto.Some?;
      if found {
        commands := Touch(commands, requestId);
        dto.value.AddResponse(payload);
      }
    }

    method HandleReport(parts: seq<string>) returns (handling: Handling)
      requires |parts| > 1
      ensures handling == if parts[1] != "atr" then Ignore
                          else if |parts| <= 2 then Fail
                          else if parts[2] == "onStats" || parts[2] == "reportStats" then
                            if |parts| <= 5 then Fail else CleanLog(parts[3], parts[5])
                          else if |parts| <= 6 then Fail
                          else Ignore
    {
      handling := Ignore;
      if parts[1] == "atr" {
        if |parts| <= 2 {
          handling := Fail;
        } else if parts[2] == "onStats" || parts[2] == "reportStats" {
          handling := if |parts| <= 5 then Fail else CleanLog(parts[3], parts[5]);
        } else if |parts| <= 6 {
          handling := Fail;
        }
      }
    }

    /** Time passes. */
    method Elapse(elapsed: real)
      requires Valid() && elapsed >= 0.0
      modifies this`clock, this`steps
      ensures Valid() && View() == Step(cfg, old(View()), Tick(elapsed))
    {
      clock, steps := clock + elapsed, steps + 1;
    }

    /** The awaited publishing is done, and the wait begins. */
    method BeginWait(dto: CommandDto)
      requires Valid() && dto in issued && dto.phase == Publishing
      modifies dto`phase, this`steps
      ensures Valid() && View() == Step(cfg, old(View()), Published(dto.number))
    {
      dto.phase := Waiting(clock + cfg.timeout);
      steps := steps + 1;
    }

    /** The wait ends with the event: the result is rendered, and the command is taken out of the cache. */
    method Finish(dto: CommandDto, requestId: string) returns (reply: Option<Reply>)
      requires Valid() && dto in issued && dto.phase.Waiting? && dto.event && requestId == dto.id
      modifies dto`phase, this`commands, this`steps
      ensures Valid() && View() == Step(cfg, old(View()), Finished(dto.number))
      ensures dto.phase == Exited(reply)
    {
      reply := dto.WaitForResponse(cfg);
      Forget(dto, requestId, reply);
      Advance();
    }

    /** The wait ends without a result, because publishing failed, time is up or the task was cancelled. */
    method GiveUp(dto: CommandDto, requestId: string, ghost e: Event)
      requires Valid() && dto in issued && requestId == dto.id && !dto.phase.Exited?
      requires || (e == PublishFailed(dto.number) && dto.phase == Publishing)
               || (e == TimedOut(dto.number) && dto.phase.Waiting? && dto.phase.deadline <= clock)
               || e == Cancelled(dto.number)
      modifies dto`phase, this`commands, this`steps
      ensures Valid() && View() == Step(cfg, old(View()), e)
    {
      Forget(dto, requestId, None);
      Advance();
    }

    /** The finally clause of a command that ends before it is registered, while connecting: its id is taken out all the same. */
    method Abort(requestId: string)
      requires Valid()
      modifies this`commands, this`steps
      ensures Valid() && View() == Step(cfg, old(View()), Aborted(requestId))
    {
      Unregister(requestId);
      Advance();
    }

    /** The finally clause of send_command_plain. */
    method Forget(dto: CommandDto, requestId: string, ghost reply: Option<Reply>)
      requires Valid() && dto in issued && requestId == dto.id
      modifies dto`phase, this`commands
      ensures Valid() && View() == Exit(old(View()), dto.number, reply)
      ensures dto.phase == Exited(reply)
    {
      Unregister(requestId);
      MarkExited(dto, reply);
    }

    /** self._commands.pop(request_id, None). */
    method Unregister(requestId: string)
      requires Valid()
      modifies this`commands
      ensures Valid() && View() == old(View()).(store := HelperBot.Forget(old(View()).store, requestId, clock))
    {
      OperationsMapped(commands, Number, requestId, clock);
      commands := Pop(commands, requestId, clock);
    }

    ghost method MarkExited(dto: CommandDto, reply: Option<Reply>)
      requires Valid() && dto in issued
      modifies dto`phase
      ensures Valid() && dto.phase == Exited(reply)
      ensures var s := old(View());
              View() == s.(calls := s.calls[dto.number := s.calls[dto.number].(phase := Exited(reply))])
    {
      dto.phase := Exited(reply);
    }
  }
}
