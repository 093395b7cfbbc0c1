// The requests the Go client prints (pkg/goclient/goclient.go), the 64-byte read buffer of
// internal/uds/uds.go, and what the server's parser makes of them.

module Requests {
  import opened Options
  import opened Text
  import opened Constants
  import opened Handshake

  function ConnectRequest(hostname: string): string { REQUEST_CONNECT + ", " + hostname }

  function MapRequest(device: string): string { REQUEST_FD + ", " + device }

  function PollRequest(timeout: int, budget: int): string {
    REQUEST_BUSY_POLL + ", " + Itoa(timeout) + ", " + Itoa(budget)
  }

  /** What one read returns of a message. */
  function Delivered(text: string): string {
    if |text| <= MSG_BUF_SIZE then text else text[..MSG_BUF_SIZE]
  }

  /** A keyword request with one argument, as the reader sees it: the argument may be cut off. */
  lemma DeliveredArgument(keyword: string, argument: string, room: nat)
    requires |keyword| + 2 + room == MSG_BUF_SIZE
    ensures Delivered(keyword + ", " + argument)
         == keyword + "," + (" " + if |argument| <= room then argument else argument[..room])
  {
    assert keyword + ", " + argument == keyword + "," + (" " + argument);
    if |argument| > room {
      assert (keyword + "," + (" " + argument))[..MSG_BUF_SIZE] == keyword + "," + (" " + argument[..room]);
    }
  }

  /** A name survives printing, the buffer and parsing exactly if it fits and has no comma or space. */
  lemma ArgumentRoundTrip(keyword: string, argument: string, room: nat)
    requires |keyword| + 2 + room == MSG_BUF_SIZE
    ensures (exists rest :: Delivered(keyword + ", " + argument) == keyword + "," + rest && ',' !in rest
                            && argument == Without(rest, ' '))
            <==> |argument| <= room && ',' !in argument && ' ' !in argument
  {
    var text := Delivered(keyword + ", " + argument);
    var tail := " " + if |argument| <= room then argument else argument[..room];
    DeliveredArgument(keyword, argument, room);
    forall rest | text == keyword + "," + rest ensures rest == tail {
      assert text[|keyword| + 1..] == rest;
    }
    WithoutLength(tail[1..], ' ');
    assert Without(tail, ' ') == Without(tail[1..], ' ');
    assert tail[1..] == if |argument| <= room then argument else argument[..room];
    assert ',' in tail <==> ',' in tail[1..] by {
      assert tail == " " + tail[1..];
    }
  }

  lemma {:induction false} WithoutLength(s: string, c: char)
    ensures |Without(s, c)| <= |s|
  {
    if s != "" {
      WithoutLength(s[1..], c);
    }
  }

  /** A map request reaches the server's lookup as the same device name exactly under these conditions. */
  lemma MapRoundTrip(device: string)
    ensures AsksForMap(Delivered(MapRequest(device)), device)
            <==> |device| <= 51 && ',' !in device && ' ' !in device
  {
    ArgumentRoundTrip(REQUEST_FD, device, 51);
  }

  lemma ConnectRoundTrip(hostname: string)
    ensures AsksToConnect(Delivered(ConnectRequest(hostname)), hostname)
            <==> |hostname| <= 54 && ',' !in hostname && ' ' !in hostname
  {
    ArgumentRoundTrip(REQUEST_CONNECT, hostname, 54);
  }

  lemma LeadingSpace(s: string)
    requires ' ' !in s
    ensures Without(" " + s, ' ') == s
  {
    assert (" " + s)[1..] == s;
  }

  lemma PollText(x: string, y: string)
    requires ',' !in x && ',' !in y
    ensures PollShape(REQUEST_BUSY_POLL + ", " + x + ", " + y, " " + x, " " + y)
  {
    assert REQUEST_BUSY_POLL + ", " + x + ", " + y == REQUEST_BUSY_POLL + "," + (" " + x) + "," + (" " + y);
  }

  /** How a printed number travels: short, without separators, and parsed back after a space. */
  ghost predicate Travels(s: string, n: int) {
    |s| <= 20 && ',' !in s && Atoi(Without(" " + s, ' ')) == Some(n)
  }

  lemma NumberTravels(n: int)
    requires INT64_MIN <= n <= INT64_MAX
    ensures Travels(Itoa(n), n)
  {
    ItoaShape(n);
    AtoiOfItoa(n);
    LeadingSpace(Itoa(n));
  }

  lemma PollTravels(x: string, y: string, timeout: int, budget: int)
    requires Travels(x, timeout) && Travels(y, budget)
    ensures var text := REQUEST_BUSY_POLL + ", " + x + ", " + y;
      |text| <= 61 && AsksForPoll(Delivered(text), timeout, budget)
  {
    PollText(x, y);
    assert PollNumbers(" " + x, " " + y, timeout, budget);
  }

  /** Every pair of int64 values survives, and the request fits the buffer. */
  lemma PollRoundTrip(timeout: int, budget: int)
    requires INT64_MIN <= timeout <= INT64_MAX && INT64_MIN <= budget <= INT64_MAX
    ensures |PollRequest(timeout, budget)| <= 61
    ensures AsksForPoll(Delivered(PollRequest(timeout, budget)), timeout, budget)
  {
    NumberTravels(timeout);
    NumberTravels(budget);
    PollTravels(Itoa(timeout), Itoa(budget), timeout, budget);
  }
}
