// internal/udsserver/udsserver.go: the server object and its loops, proved against the
// conversation specification of Handshake.

module UdsServer {
  import opened Options
  import opened Sequences
  import opened Text
  import opened Constants
  import opened Handshake
  import opened Admission

  /**
   What the server talks to: the socket, the busy poll configuration and the pod resources API. The log records
   every operation in order.
   */
  class Outside {
    const outcomes: Outcomes
    const pods: Option<map<string, Pod>>
    const accepts: bool
    var inbox: seq<Read>
    var log: seq<Event>

    constructor (outcomes: Outcomes, pods: Option<map<string, Pod>>, accepts: bool, inbox: seq<Read>)
      ensures this.outcomes == outcomes && this.pods == pods && this.accepts == accepts
      ensures this.inbox == inbox && log == []
    {
      this.outcomes := outcomes;
      this.pods := pods;
      this.accepts := accepts;
      this.inbox := inbox;
      log := [];
    }

    method Read() returns (read: Read)
      modifies this
      ensures old(inbox) == [] ==> read == Failure && inbox == []
      ensures old(inbox) != [] ==> read == old(inbox)[0] && inbox == old(inbox)[1..]
      ensures log == old(log) + [match read case Failure => ReadFailed case Message(text, fd) => Received(text, fd)]
    {
      read := Failure;
      if inbox != [] {
        read := inbox[0];
        inbox := inbox[1..];
      }
      log := log + [match read case Failure => ReadFailed case Message(text, fd) => Received(text, fd)];
    }

    method Write(response: string, fd: int) returns (ok: bool)
      modifies this`log
      ensures ok == outcomes.writeOk(|old(log)|)
      ensures log == old(log) + [Answer(outcomes, |old(log)|, response, fd)]
    {
      ok := outcomes.writeOk(|log|);
      log := log + [Sent(response, fd, ok)];
    }

    method ConfigureBusyPoll(fd: int, timeout: int, budget: int) returns (ok: bool)
      modifies this`log
      ensures ok == outcomes.pollOk(|old(log)|)
      ensures log == old(log) + [Polled(fd, timeout, budget, ok)]
    {
      ok := outcomes.pollOk(|log|);
      log := log + [Polled(fd, timeout, budget, ok)];
    }
  }

  class Server {
    const deviceType: string
    const outside: Outside
    var podName: string
    var devices: map<string, int>

    constructor (deviceType: string, outside: Outside)
      ensures this.deviceType == deviceType && this.outside == outside
      ensures podName == "unvalidated" && devices == map[]
    {
      this.deviceType := deviceType;
      this.outside := outside;
      podName := "unvalidated";
      devices := map[];
    }

    method AddDevice(dev: string, fd: int)
      modifies this`devices
      ensures devices == old(devices)[dev := fd]
    {
      devices := devices[dev := fd];
    }

    /** The handlers return whether the server may go on. */
    method HandleFdRequest(request: string) returns (go: bool)
      modifies outside`log
      ensures var step := HandleFd(outside.outcomes, devices, request, |old(outside.log)|);
              outside.log == old(outside.log) + step.events && go == step.go
    {
      var words := Split(request, ",");
      if |words| != 2 || words[0] != REQUEST_FD {
        go := outside.Write(RESPONSE_BAD_REQUEST, -1);
        return;
      }
      var iface := Without(words[1], ' ');
      if iface in devices {
        go := outside.Write(RESPONSE_FD_ACK, devices[iface]);
      } else {
        go := outside.Write(RESPONSE_FD_NAK, -1);
      }
    }

    /** The part of handleBusyPollRequest after the descriptor check. */
    method ConfigureFromRequest(request: string, fd: int) returns (go: bool)
      modifies outside`log
      ensures var step := Handshake.ConfigureBusyPoll(outside.outcomes, request, fd, |old(outside.log)|);
              outside.log == old(outside.log) + step.events && go == step.go
    {
      var words := Split(request, ",");
      if |words| != 3 || words[0] != REQUEST_BUSY_POLL {
        go := outside.Write(RESPONSE_BAD_REQUEST, -1);
        return;
      }
      var timeout := Atoi(Without(words[1], ' '));
      if timeout.None? {
        return false;
      }
      var budget := Atoi(Without(words[2], ' '));
      if budget.None? {
        return false;
      }
      var polled := outside.ConfigureBusyPoll(fd, timeout.value, budget.value);
      ghost var first := outside.log[|outside.log| - 1];
      if !polled {
        var _ := outside.Write(RESPONSE_BUSY_POLL_NAK, -1);
        AppendTwo(old(outside.log), first, outside.log[|outside.log| - 1]);
        return false;
      }
      var _ := outside.Write(RESPONSE_BUSY_POLL_ACK, -1);
      AppendTwo(old(outside.log), first, outside.log[|outside.log| - 1]);
      return true;
    }

    method HandleBusyPollRequest(request: string, fd: int) returns (go: bool)
      modifies outside`log
      ensures var step := HandleBusyPoll(outside.outcomes, request, fd, |old(outside.log)|);
              outside.log == old(outside.log) + step.events && go == step.go
    {
      if fd <= 0 {
        var ok := outside.Write(RESPONSE_BUSY_POLL_NAK, -1);
        if !ok {
          return false;
        }
      }
      go := ConfigureFromRequest(request, fd);
    }

    method HandleRequest(request: string, fd: int) returns (go: bool)
      modifies outside`log
      ensures var step := Respond(outside.outcomes, devices, request, fd, |old(outside.log)|);
              outside.log == old(outside.log) + step.events && go == step.go
    {
      if Contains(request, REQUEST_FD) {
        go := HandleFdRequest(request);
      } else if request == REQUEST_VERSION {
        go := outside.Write(VERSION, -1);
      } else if Contains(request, REQUEST_BUSY_POLL) {
        go := HandleBusyPollRequest(request, fd);
      } else if request == REQUEST_FIN {
        go := outside.Write(RESPONSE_FIN_ACK, -1);
        go := false;
      } else {
        go := outside.Write(RESPONSE_BAD_REQUEST, -1);
      }
    }

    /** The ids a container lists for this server's device type. */
    method ContainerDevices(container: seq<DeviceList>) returns (contDevs: seq<string>)
      ensures contDevs == IdsFor(container, deviceType)
      ensures forall n :: n in contDevs
                <==> exists k | 0 <= k < |container| :: container[k].resource == deviceType && n in container[k].ids
    {
      contDevs := [];
      for i := 0 to |container|
        invariant contDevs == IdsFor(container[..i], deviceType)
      {
        assert container[..i + 1][..i] == container[..i];
        if container[i].resource == deviceType {
          contDevs := contDevs + container[i].ids;
        }
      }
      assert container[..|container|] == container;
      IdsContents(container, deviceType);
    }

    method ValidatePod(podName: string) returns (verdict: Verdict)
      ensures verdict == Validate(outside.pods, podName, deviceType, devices.Keys)
      ensures verdict == Unknown <==> outside.pods.None?
      ensures verdict == Accepted ==>
                && podName in outside.pods.value
                && exists c, list :: && 0 <= c < |outside.pods.value[podName].containers|
                                     && list in outside.pods.value[podName].containers[c]
                                     && list.resource == deviceType
    {
      if outside.pods.None? {
        return Unknown;
      }
      if podName !in outside.pods.value {
        return Rejected;
      }
      var pod := outside.pods.value[podName];
      var valid := false;
      for c := 0 to |pod.containers|
        invariant !valid
        invariant forall b | 0 <= b < c :: !Matches(IdsFor(pod.containers[b], deviceType), devices.Keys)
      {
        var contDevs := ContainerDevices(pod.containers[c]);
        if |contDevs| == |devices| {
          for k := 0 to |contDevs|
            invariant valid <==> k > 0
            invariant forall j | 0 <= j < k :: contDevs[j] in devices.Keys
          {
            if contDevs[k] in devices {
              valid := true;
            } else {
              valid := false;
              break;
            }
          }
        }
        if valid {
          assert contDevs[0] in contDevs;
          return Accepted;
        }
      }
      return Rejected;
    }

    /** The first request: validates the pod and answers it. */
    method Welcome(request: string) returns (connected: bool)
      modifies this`podName, outside`log
      ensures var step := Greet(outside.outcomes, devices, outside.pods, deviceType, request, |old(outside.log)|);
              outside.log == old(outside.log) + step.events && connected == step.go
      ensures if connected then AsksToConnect(request, podName) else podName == old(podName)
    {
      connected := false;
      if !Contains(request, REQUEST_CONNECT) {
        return;
      }
      var name := "";
      var words := Split(request, ",");
      if |words| == 2 && words[0] == REQUEST_CONNECT {
        name := Without(words[1], ' ');
        var verdict := ValidatePod(name);
        if verdict == Unknown {
          var _ := outside.Write(RESPONSE_ERROR, -1);
        }
        connected := verdict == Accepted;
      }
      if connected {
        podName := name;
        ConnectGrammar(request, name);
        var _ := outside.Write(RESPONSE_HOST_OK, -1);
      } else {
        var _ := outside.Write(RESPONSE_HOST_NAK, -1);
      }
    }

    /** One round of the request loop. */
    method Round() returns (connected: bool)
      modifies outside
      ensures var turn := Turn(Answers(outside.outcomes, devices),
                               if old(outside.inbox) == [] then Failure else old(outside.inbox)[0], |old(outside.log)|);
              outside.log == old(outside.log) + turn.events && connected == turn.go
      ensures outside.inbox == if old(outside.inbox) == [] then [] else old(outside.inbox)[1..]
    {
      var read := outside.Read();
      if read.Failure? {
        return false;
      }
      ghost var n := |outside.log|;
      connected := HandleRequest(read.text, read.fd);
      ghost var step := Respond(outside.outcomes, devices, read.text, read.fd, n);
      ConcatAssoc(old(outside.log), [Received(read.text, read.fd)], step.events);
    }

    /** The request loop of a connected server. */
    method ServeRequests()
      modifies outside
      ensures outside.log == old(outside.log)
                           + Loop(Answers(outside.outcomes, devices), old(outside.inbox), |old(outside.log)|)
    {
      var connected := true;
      ghost var respond := Answers(outside.outcomes, devices);
      ghost var total := outside.log + Loop(respond, outside.inbox, |outside.log|);
      while connected
        invariant total == if connected then outside.log + Loop(respond, outside.inbox, |outside.log|) else outside.log
        decreases connected, |outside.inbox|
      {
        LoopRound(respond, outside.log, outside.inbox);
        connected := Round();
      }
    }

    /** Serves one connection: the log is exactly the conversation the specification describes. */
    method Start()
      requires outside.log == []
      modifies this`podName, outside
      ensures outside.log ==
              if !outside.accepts then []
              else Serve(outside.outcomes, devices, outside.pods, deviceType, old(outside.inbox))
      ensures podName == old(podName) || (old(outside.inbox) != [] && old(outside.inbox)[0].Message?
                                          && AsksToConnect(old(outside.inbox)[0].text, podName))
    {
      if !outside.accepts {
        return;
      }
      var first := outside.Read();
      assert outside.log == [outside.log[0]];
      if first.Failure? {
        return;
      }
      var connected := Welcome(first.text);
      if connected {
        ServeRequests();
      }
    }
  }
}
