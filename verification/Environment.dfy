/**
 The operating system as the client sees it. Every answer is arbitrary within the contract of the
 system call; ghost logs record what crossed the wire. Loops that only the outside world can end
 are bounded by a patience that is arbitrary at the start, so nothing is assumed about its size.
 */
module Environment {
  import opened Bytes

  datatype ConnectResult = Connected | InProgress | Refused

  /** What is known of a server in advance: nothing, or that it refuses, or that connects take their time. */
  datatype Script = Free | Refusing | Slow

  /** What a socket, the n-th of its endpoint, had sent and received at some moment. */
  datatype Moment = Moment(socket: nat, sent: seq<Byte>, received: seq<Byte>)

  /** The kernel's side of one Connection: whatever socket is open for it at the moment. */
  class Endpoint {
    const script: Script
    ghost var sent: seq<Byte>       // accepted by write() since the socket was created
    ghost var received: seq<Byte>   // delivered by read() since the socket was created
    ghost var sockets: nat          // how many sockets have been created
    ghost var eof: bool             // read() has reported the end of the stream
    ghost var moments: set<Moment>  // every state of the wire there has been, on all sockets
    ghost var troubles: nat         // how many calls have failed for good, or reported the end of the stream
    ghost var full: nat             // how many times write() has said EAGAIN
    ghost var dry: nat              // how many times read() has said EAGAIN
    ghost var pending: bool         // the outcome of connect() is not known yet
    var patience: nat               // how many more times read() may deliver something

    constructor (script: Script, patience: nat)
      ensures sent == [] && received == [] && sockets == 0 && !eof && moments == {}
      ensures this.script == script && this.patience == patience
    {
      this.script, this.patience := script, patience;
      sent, received, sockets, eof, moments := [], [], 0, false, {};
      troubles, full, dry, pending := 0, 0, 0, false;
    }

    ghost function Now(): Moment
      reads this
    {
      Moment(sockets, sent, received)
    }

    /** getaddrinfo(), socket() and fcntl(): a new non-blocking socket, or the step that failed. */
    method Create() returns (resolved: bool, fd: int, configured: bool)
      modifies this
      ensures fd == -1 || fd > 0
      ensures patience == old(patience)
      ensures if resolved && fd > 0
              then sent == [] && received == [] && !eof && sockets == old(sockets) + 1
                   && moments == old(moments) + {Now()}
              else sent == old(sent) && received == old(received) && eof == old(eof) && sockets == old(sockets)
                   && moments == old(moments)
      ensures troubles == old(troubles) + (if resolved && fd > 0 && configured then 0 else 1)
      ensures full == old(full) && dry == old(dry)
      ensures script.Slow? ==> resolved && fd > 0 && configured
    {
      resolved, fd, configured := *, *, *;
      if script.Slow? {
        resolved, fd, configured := true, 1, true;
      }
      if fd <= 0 {
        fd := -1;
      }
      if resolved && fd > 0 {
        sent, received, eof, sockets := [], [], false, sockets + 1;
        moments := moments + {Now()};
      }
      if !resolved || fd <= 0 || !configured {
        troubles := troubles + 1;
      }
    }

    /** connect() on a non-blocking socket. */
    method Connect() returns (r: ConnectResult)
      modifies this`troubles, this`pending
      ensures script.Refusing? ==> r == Refused
      ensures script.Slow? ==> r == InProgress
      ensures troubles == old(troubles) + (if r == Refused then 1 else 0) && (pending <==> r == InProgress)
    {
      r := *;
      if script.Refusing? {
        r := Refused;
      } else if script.Slow? {
        r := InProgress;
      }
      pending := r == InProgress;
      if r == Refused {
        troubles := troubles + 1;
      }
    }

    /** getsockopt(SO_ERROR) after a connect that was in progress. */
    method PendingError() returns (failed: bool)
      modifies this`troubles, this`pending
      ensures troubles == old(troubles) + (if failed then 1 else 0) && !pending
    {
      failed := *;
      pending := false;
      if failed {
        troubles := troubles + 1;
      }
    }

    /** write(): takes at least one byte, or fails with EAGAIN or another error. */
    method Write(bytes: seq<Byte>) returns (res: int, again: bool)
      requires bytes != []
      modifies this
      ensures res == -1 || 1 <= res <= |bytes|
      ensures sent == old(sent) + (if res == -1 then [] else bytes[..res])
      ensures received == old(received) && eof == old(eof)
      ensures sockets == old(sockets) && patience == old(patience) && moments == old(moments) + {Now()}
      ensures troubles == old(troubles) + (if res == -1 && !again then 1 else 0)
      ensures full == old(full) + (if res == -1 && again then 1 else 0) && dry == old(dry) && pending == old(pending)
    {
      res, again := *, *;
      if 1 <= res <= |bytes| {
        sent := sent + bytes[..res];
      } else {
        res := -1;
        assert sent + [] == sent;
        troubles, full := troubles + (if again then 0 else 1), full + if again then 1 else 0;
      }
      moments := moments + {Now()};
    }

    /** read(): at most room bytes, 0 at the end of the stream or if room is 0, or an error. */
    method Read(room: nat) returns (res: int, again: bool, bytes: seq<Byte>)
      modifies this
      ensures |bytes| <= room && (res == -1 ==> bytes == []) && (res == -1 || res == |bytes|)
      ensures received == old(received) + bytes
      ensures sent == old(sent) && sockets == old(sockets) && moments == old(moments) + {Now()}
      ensures eof == (old(eof) || (res == 0 && room > 0))
      ensures patience + (if res > 0 then 1 else 0) <= old(patience)
      ensures troubles == old(troubles) + (if (res == -1 && !again) || (res == 0 && room > 0) then 1 else 0)
      ensures dry == old(dry) + (if res == -1 && again then 1 else 0) && full == old(full) && pending == old(pending)
    {
      res, again, bytes := *, *, *;
      if res == -1 || patience == 0 || room == 0 {
        bytes := [];
      } else if |bytes| > room {
        bytes := bytes[..room];
      }
      if res != -1 {
        res := |bytes|;
        eof := eof || (res == 0 && room > 0);
      }
      if res > 0 {
        patience := patience - 1;
      }
      if (res == -1 && !again) || (res == 0 && room > 0) {
        troubles := troubles + 1;
      } else if res == -1 {
        dry := dry + 1;
      }
      assert received + [] == received;
      received := received + bytes;
      moments := moments + {Now()};
    }
  }

  /** The monotonic clock, seen only through "is there time left"; it also keeps account of what poll() says. */
  class Clock {
    var patience: nat         // how many more times the answer may be yes
    ghost var timeouts: nat   // how many times time was up, by the clock or by poll()
    ghost var errors: nat     // how many times poll() has failed

    constructor (patience: nat)
      ensures this.patience == patience
    {
      this.patience, timeouts, errors := patience, 0, 0;
    }

    method TimeLeft() returns (more: bool)
      modifies this
      ensures patience + (if more then 1 else 0) <= old(patience)
      ensures timeouts == old(timeouts) + (if more then 0 else 1) && errors == old(errors)
    {
      more := *;
      if patience == 0 {
        more := false;
      } else if more {
        patience := patience - 1;
      }
      if !more {
        timeouts := timeouts + 1;
      }
    }
  }

  /** struct pollfd: events and revents, of which only POLLIN and POLLOUT are looked at. */
  datatype PollFd = PollFd(fd: int, wantIn: bool, wantOut: bool, gotIn: bool, gotOut: bool)

  /** The bits that poll() reports are among those asked for. */
  predicate Contained(f: PollFd) {
    (f.gotIn ==> f.wantIn) && (f.gotOut ==> f.wantOut)
  }

  predicate Unreported(f: PollFd) {
    !f.gotIn && !f.gotOut
  }

  /** What was asked for, without what was reported. */
  function Quiet(f: PollFd): PollFd {
    f.(gotIn := false, gotOut := false)
  }

  /** poll(): any bits that were asked for, together with any result; 0 means that there are none. */
  method Poll(fds: array<PollFd>, n: nat, ghost clock: Clock) returns (result: int)
    requires n <= fds.Length
    modifies fds, clock`timeouts, clock`errors
    ensures clock.timeouts == old(clock.timeouts) + (if result == 0 then 1 else 0)
    ensures clock.errors == old(clock.errors) + (if result < 0 then 1 else 0)
    ensures forall i | 0 <= i < n :: Contained(fds[i])
    ensures forall i | 0 <= i < n :: Quiet(fds[i]) == Quiet(old(fds[i]))
    ensures fds[n..] == old(fds[n..])
    ensures result == 0 ==> forall i | 0 <= i < n :: Unreported(fds[i])
  {
    result := *;
    for i := 0 to n
      invariant result == 0 ==> forall j | 0 <= j < i :: Unreported(fds[j])
      invariant forall j | 0 <= j < i :: Contained(fds[j])
      invariant forall j | 0 <= j < i :: Quiet(fds[j]) == Quiet(old(fds[j]))
      invariant fds[i..] == old(fds[i..])
      invariant clock.timeouts == old(clock.timeouts) && clock.errors == old(clock.errors)
    {
      var readable: bool, writable: bool := *, *;
      var f := fds[i];
      assert f == old(fds[i..])[0];
      var any := result != 0;
      fds[i] := f.(gotIn := any && readable && f.wantIn, gotOut := any && writable && f.wantOut);
      assert fds[i + 1..] == old(fds[i..])[1..];
    }
    if result == 0 {
      clock.timeouts := clock.timeouts + 1;
    } else if result < 0 {
      clock.errors := clock.errors + 1;
    }
  }
}
