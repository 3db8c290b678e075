/**
 * The SIP022 datagram replay window: a high-water mark and a 64-bit map of the
 * packet identifiers just below it, against the set of identifiers admitted.
 */
module ReplayWindow {
  import opened Bytes

  const WIDTH: nat := 64

  /** A 64-bit word, least significant bit first. */
  type Word = bits: seq<bool> | |bits| == 64 witness seq(64, i => false)

  function Zero(): (word: Word) {
    seq(WIDTH, i => false)
  }

  /** `word << count`, bits pushed past the top lost. */
  function ShiftLeft(word: Word, count: nat): (shifted: Word)
    ensures forall i :: 0 <= i < WIDTH ==> (shifted[i] <==> i >= count && word[i - count])
  {
    seq(WIDTH, i requires 0 <= i < WIDTH => i >= count && word[i - count])
  }

  /** The identifier `distance` below the mark has been admitted. */
  ghost predicate Known(mark: nat, admitted: set<nat>, distance: nat) {
    distance <= mark && mark - distance in admitted
  }

  /** Every bit is exact, save the one 64 below that a jump by 64 lost. */
  ghost predicate Maps(below: Word, mark: nat, admitted: set<nat>, blind: bool) {
    forall i :: 0 <= i < WIDTH ==>
      (below[i] <==> Known(mark, admitted, i + 1) && !(blind && i + 1 == WIDTH))
  }

  /** What a window says of an identifier: yes above the mark, and yes up to 64
      below it if never admitted or if it is the one the window is blind to. */
  ghost predicate Acceptable(highest: Option<nat>, admitted: set<nat>, blind: bool, id: nat) {
    match highest
    case None => true
    case Some(mark) =>
      id > mark || (mark - WIDTH <= id < mark && (id !in admitted || (blind && id == mark - WIDTH)))
  }

  /** How an offered identifier moves the mark; the window goes blind on an
      advance by exactly 64 and recovers when the mark moves or the lost
      identifier comes again. */
  ghost predicate Moves(highest: Option<nat>, blind: bool, id: nat, highest': Option<nat>, blind': bool) {
    if highest.None? then highest' == Some(id) && !blind'
    else if id > highest.value then highest' == Some(id) && (blind' <==> id == highest.value + WIDTH)
    else highest' == highest && (blind' <==> blind && id != highest.value - WIDTH)
  }

  lemma {:induction false} ShiftMaps(below: Word, mark: nat, admitted: set<nat>, blind: bool, gap: nat)
    requires Maps(below, mark, admitted, blind) && mark in admitted && (forall id <- admitted :: id <= mark)
    requires 0 < gap < WIDTH
    ensures Maps(ShiftLeft(below, gap)[gap - 1 := true], mark + gap, admitted + {mark + gap}, false)
  {
    var moved := ShiftLeft(below, gap)[gap - 1 := true];
    forall i | 0 <= i < WIDTH
      ensures moved[i] <==> Known(mark + gap, admitted + {mark + gap}, i + 1)
    {
      if i >= gap {
        assert moved[i] == below[i - gap];
        assert Known(mark + gap, admitted + {mark + gap}, i + 1) <==> Known(mark, admitted, i - gap + 1);
      }
    }
  }

  class Window {
    var highest: Option<nat>
    /** Bit `d - 1` stands for the identifier `d` below the mark. */
    var below: Word

    /** Every identifier ever admitted. */
    ghost var admitted: set<nat>
    /** The last advance of the mark was by exactly 64 and the old mark, now 64
        below, has not been seen again: its bit fell off the map. */
    ghost var blind: bool

    ghost predicate Valid()
      reads this
    {
      match highest
      case None => admitted == {} && below == Zero() && !blind
      case Some(mark) =>
        && mark in admitted
        && (forall id <- admitted :: id <= mark)
        && Maps(below, mark, admitted, blind)
        && (blind ==> Known(mark, admitted, WIDTH))
    }

    constructor ()
      ensures Valid() && highest.None? && admitted == {} && !blind
    {
      highest := None;
      below := Zero();
      admitted := {};
      blind := false;
    }

    /** Moves the mark up to `id`, keeping the bits that stay in range. */
    method Advance(id: nat)
      requires Valid() && highest.Some? && id > highest.value
      modifies this
      ensures Valid() && highest == Some(id) && admitted == old(admitted) + {id}
      ensures blind <==> id - old(highest).value == WIDTH
    {
      var gap := id - highest.value;
      if gap < WIDTH {
        ShiftMaps(below, highest.value, admitted, blind, gap);
        below := ShiftLeft(below, gap)[gap - 1 := true];
      } else {
        below := Zero();
      }
      highest := Some(id);
      admitted := admitted + {id};
      blind := gap == WIDTH;
    }

    /** `Window::admit`: exactly the acceptable identifiers, each of them
        remembered, and blindness only from an advance by exactly 64. */
    method Admit(id: nat) returns (taken: bool)
      requires Valid()
      modifies this
      ensures Valid()
      ensures taken <==> Acceptable(old(highest), old(admitted), old(blind), id)
      ensures admitted == (if taken then old(admitted) + {id} else old(admitted))
      ensures Moves(old(highest), old(blind), id, highest, blind)
    {
      if highest.None? {
        highest := Some(id);
        admitted := {id};
        return true;
      }
      if id > highest.value {
        Advance(id);
        return true;
      }
      var behind := highest.value - id;
      if behind == 0 || behind > WIDTH {
        return false;
      }
      if below[behind - 1] {
        return false;
      }
      below := below[behind - 1 := true];
      admitted := admitted + {id};
      if behind == WIDTH {
        blind := false;
      }
      return true;
    }
  }

  /** The highest of the first `n` identifiers offered. */
  ghost function Mark(ids: seq<nat>, n: nat): Option<nat>
    requires n <= |ids|
  {
    if n == 0 then None
    else
      var before := Mark(ids, n - 1);
      if before.None? || ids[n - 1] > before.value then Some(ids[n - 1]) else before
  }

  lemma {:induction false} MarkBounds(ids: seq<nat>, n: nat, i: nat)
    requires i < n <= |ids|
    ensures Mark(ids, n).Some? && ids[i] <= Mark(ids, n).value
    decreases n
  {
    if i < n - 1 {
      MarkBounds(ids, n - 1, i);
    }
  }

  /** The mark after `n` identifiers was reached by a jump of exactly 64. */
  ghost predicate JumpAt(ids: seq<nat>, i: nat)
    requires i < |ids|
  {
    Mark(ids, i).Some? && ids[i] == Mark(ids, i).value + WIDTH
  }

  ghost predicate Jumped(ids: seq<nat>, n: nat)
    requires n <= |ids|
  {
    exists i :: 0 <= i < n && JumpAt(ids, i) && Mark(ids, n) == Some(ids[i])
  }

  /** The identifier at `m` is the mark that the last jump, by exactly 64, left behind. */
  ghost predicate ReplayAt(ids: seq<nat>, m: nat)
    requires m < |ids|
  {
    Jumped(ids, m) && ids[m] == Mark(ids, m).value - WIDTH
  }

  ghost predicate Replays(ids: seq<nat>, n: nat)
    requires n <= |ids|
  {
    exists m :: 0 <= m < n && ReplayAt(ids, m)
  }

  lemma {:induction false} JumpedOn(ids: seq<nat>, n: nat)
    requires n < |ids|
    ensures Jumped(ids, n + 1) <==> (if Mark(ids, n).None? || ids[n] > Mark(ids, n).value then JumpAt(ids, n) else Jumped(ids, n))
  {
    if Mark(ids, n).None? || ids[n] > Mark(ids, n).value {
      if Jumped(ids, n + 1) {
        var i :| 0 <= i < n + 1 && JumpAt(ids, i) && Mark(ids, n + 1) == Some(ids[i]);
        if i < n {
          MarkBounds(ids, n, i);
        }
      }
      if JumpAt(ids, n) {
        assert Mark(ids, n + 1) == Some(ids[n]);
      }
    } else {
      if Jumped(ids, n) {
        var i :| 0 <= i < n && JumpAt(ids, i) && Mark(ids, n) == Some(ids[i]);
        assert JumpAt(ids, i) && Mark(ids, n + 1) == Some(ids[i]);
      }
      if Jumped(ids, n + 1) {
        var i :| 0 <= i < n + 1 && JumpAt(ids, i) && Mark(ids, n + 1) == Some(ids[i]);
        assert i < n;
      }
    }
  }

  /** No identifier is answered yes twice. */
  ghost predicate OnceEach(ids: seq<nat>, answers: seq<bool>)
    requires |answers| <= |ids|
  {
    forall i, j :: 0 <= i < j < |answers| && answers[i] && answers[j] ==> ids[i] != ids[j]
  }

  ghost predicate Offered(ids: seq<nat>, n: nat, id: nat)
    requires n <= |ids|
  {
    exists i :: 0 <= i < n && ids[i] == id
  }

  /** The identifier at `n`, if never offered before, is answered yes exactly
      when it is not more than 64 below the mark. */
  ghost predicate FirstJudged(ids: seq<nat>, n: nat, answer: bool)
    requires n < |ids|
  {
    !Offered(ids, n, ids[n]) ==> (answer <==> Mark(ids, n).None? || ids[n] >= Mark(ids, n).value - WIDTH)
  }

  ghost predicate AllJudged(ids: seq<nat>, answers: seq<bool>)
    requires |answers| <= |ids|
  {
    forall n :: 0 <= n < |answers| ==> FirstJudged(ids, n, answers[n])
  }

  ghost predicate Answered(ids: seq<nat>, answers: seq<bool>, id: nat)
    requires |answers| <= |ids|
  {
    exists i :: 0 <= i < |answers| && answers[i] && ids[i] == id
  }

  /** What the window remembers is what was answered yes. */
  ghost predicate Remembers(ids: seq<nat>, answers: seq<bool>, admitted: set<nat>)
    requires |answers| <= |ids|
  {
    && (forall id <- admitted :: Answered(ids, answers, id))
    && (forall i :: 0 <= i < |answers| && answers[i] ==> ids[i] in admitted)
  }

  /** What one answer adds, from what the window knew when it gave it. */
  lemma {:induction false} OneMore(ids: seq<nat>, answers: seq<bool>, admitted: set<nat>, taken: bool)
    requires |answers| < |ids| && Remembers(ids, answers, admitted)
    ensures Remembers(ids, answers + [taken], if taken then admitted + {ids[|answers|]} else admitted)
    ensures OnceEach(ids, answers + [taken]) <==> OnceEach(ids, answers) && !(taken && ids[|answers|] in admitted)
  {
    var n := |answers|;
    var all := answers + [taken];
    assert forall i :: 0 <= i < n ==> all[i] == answers[i];
    if taken {
      assert all[n] && ids[n] == ids[n];
      assert Answered(ids, all, ids[n]);
    }
    forall id <- admitted
      ensures Answered(ids, all, id)
    {
      var i :| 0 <= i < n && answers[i] && ids[i] == id;
      assert all[i] && ids[i] == id;
    }
    if taken && ids[n] in admitted {
      var i :| 0 <= i < n && answers[i] && ids[i] == ids[n];
      assert all[i] && all[n] && ids[i] == ids[n];
    }
    if OnceEach(ids, all) {
      assert forall i, j :: 0 <= i < j < n && answers[i] && answers[j] ==> all[i] && all[j];
    }
  }

  lemma {:induction false} JudgedOn(ids: seq<nat>, answers: seq<bool>, admitted: set<nat>, blind: bool, taken: bool)
    requires |answers| < |ids| && Remembers(ids, answers, admitted) && AllJudged(ids, answers)
    requires Mark(ids, |answers|).Some? ==> Mark(ids, |answers|).value in admitted
    requires taken <==> Acceptable(Mark(ids, |answers|), admitted, blind, ids[|answers|])
    ensures AllJudged(ids, answers + [taken])
  {
    var n := |answers|;
    if ids[n] in admitted {
      var i :| 0 <= i < n && answers[i] && ids[i] == ids[n];
      assert Offered(ids, n, ids[n]);
    }
    assert FirstJudged(ids, n, taken);
    forall i | 0 <= i <= n
      ensures FirstJudged(ids, i, (answers + [taken])[i])
    {
    }
  }

  lemma {:induction false} ReplaysOn(ids: seq<nat>, n: nat)
    requires n < |ids|
    ensures Replays(ids, n + 1) <==> Replays(ids, n) || ReplayAt(ids, n)
  {
    if Replays(ids, n) {
      var m :| 0 <= m < n && ReplayAt(ids, m);
      assert 0 <= m < n + 1 && ReplayAt(ids, m);
    }
  }

  /** The window is blind only behind a jump by exactly 64, and stays so until
      the mark it jumped from comes again. */
  ghost predicate Sees(ids: seq<nat>, n: nat, highest: Option<nat>, blind: bool) {
    && n <= |ids|
    && highest == Mark(ids, n)
    && (blind ==> Jumped(ids, n))
    && (Jumped(ids, n) ==> blind || Replays(ids, n))
  }

  lemma {:induction false} SeesOn(ids: seq<nat>, n: nat, highest: Option<nat>, blind: bool, highest': Option<nat>, blind': bool)
    requires Sees(ids, n, highest, blind) && n < |ids|
    requires Moves(highest, blind, ids[n], highest', blind')
    ensures Sees(ids, n + 1, highest', blind')
  {
    JumpedOn(ids, n);
    ReplaysOn(ids, n);
  }

  /** An answer repeats an admission exactly where the history replays. */
  lemma {:induction false} RepeatIsReplay(ids: seq<nat>, n: nat, highest: Option<nat>, admitted: set<nat>, blind: bool)
    requires Sees(ids, n, highest, blind) && n < |ids| && !Replays(ids, n)
    requires highest.Some? ==> forall id <- admitted :: id <= highest.value
    requires highest.None? ==> admitted == {}
    requires blind ==> highest.Some? && Known(highest.value, admitted, WIDTH)
    ensures Replays(ids, n + 1) <==> Acceptable(highest, admitted, blind, ids[n]) && ids[n] in admitted
  {
    ReplaysOn(ids, n);
  }

  /** The history of a run and what its window holds, in step. */
  ghost predicate Tracks(ids: seq<nat>, answers: seq<bool>, highest: Option<nat>, admitted: set<nat>, blind: bool) {
    && |answers| <= |ids|
    && Sees(ids, |answers|, highest, blind)
    && Remembers(ids, answers, admitted)
    && (OnceEach(ids, answers) <==> !Replays(ids, |answers|))
    && AllJudged(ids, answers)
  }

  lemma {:induction false} OnceOn(
      ids: seq<nat>, answers: seq<bool>, highest: Option<nat>, admitted: set<nat>, blind: bool, taken: bool)
    requires Tracks(ids, answers, highest, admitted, blind) && |answers| < |ids|
    requires highest.Some? ==> forall id <- admitted :: id <= highest.value
    requires highest.None? ==> admitted == {}
    requires blind ==> highest.Some? && Known(highest.value, admitted, WIDTH)
    requires taken <==> Acceptable(highest, admitted, blind, ids[|answers|])
    ensures OnceEach(ids, answers + [taken]) <==> !Replays(ids, |answers| + 1)
  {
    OneMore(ids, answers, admitted, taken);
    if Replays(ids, |answers|) {
      ReplaysOn(ids, |answers|);
    } else {
      RepeatIsReplay(ids, |answers|, highest, admitted, blind);
    }
  }

  lemma {:induction false} TracksOn(ids: seq<nat>, answers: seq<bool>, highest: Option<nat>, admitted: set<nat>, blind: bool,
                                   taken: bool, highest': Option<nat>, admitted': set<nat>, blind': bool)
    requires Tracks(ids, answers, highest, admitted, blind) && |answers| < |ids|
    requires highest.Some? ==> highest.value in admitted && forall id <- admitted :: id <= highest.value
    requires highest.None? ==> admitted == {}
    requires blind ==> highest.Some? && Known(highest.value, admitted, WIDTH)
    requires taken <==> Acceptable(highest, admitted, blind, ids[|answers|])
    requires Moves(highest, blind, ids[|answers|], highest', blind')
    requires admitted' == if taken then admitted + {ids[|answers|]} else admitted
    ensures Tracks(ids, answers + [taken], highest', admitted', blind')
  {
    assert |answers + [taken]| == |answers| + 1;
    SeesOn(ids, |answers|, highest, blind, highest', blind');
    OneMore(ids, answers, admitted, taken);
    JudgedOn(ids, answers, admitted, blind, taken);
    OnceOn(ids, answers, highest, admitted, blind, taken);
  }

  /** A whole run from an empty window. An identifier is admitted twice exactly
      when the mark jumps by exactly 64 and the identifier it jumped from comes
      again before the mark next moves; and in every run an identifier offered
      for the first time is admitted exactly when it is within reach. */
  method Run(ids: seq<nat>) returns (answers: seq<bool>)
    ensures |answers| == |ids|
    ensures OnceEach(ids, answers) <==> !Replays(ids, |ids|)
    ensures AllJudged(ids, answers)
  {
    var window := new Window();
    answers := [];
    for n := 0 to |ids|
      invariant window.Valid() && |answers| == n
      invariant Tracks(ids, answers, window.highest, window.admitted, window.blind)
    {
      ghost var highest, admitted, blind := window.highest, window.admitted, window.blind;
      var taken := window.Admit(ids[n]);
      TracksOn(ids, answers, highest, admitted, blind, taken, window.highest, window.admitted, window.blind);
      answers := answers + [taken];
    }
  }

  /** The gap in the window: after 0 and 64, the identifier 0 is admitted again. */
  method AdmittedTwice() returns (first: bool, second: bool, third: bool)
    ensures first && second && third
  {
    var window := new Window();
    first := window.Admit(0);
    second := window.Admit(64);
    third := window.Admit(0);
  }

  // ------------------------------------------------------------ windows of sessions

  /** What a window has made of its history. */
  datatype Seen = Seen(highest: Option<nat>, admitted: set<nat>, blind: bool)

  ghost function Next(seen: Seen, id: nat): Seen {
    var admitted := if Acceptable(seen.highest, seen.admitted, seen.blind, id) then seen.admitted + {id} else seen.admitted;
    if seen.highest.None? then Seen(Some(id), admitted, false)
    else if id > seen.highest.value then Seen(Some(id), admitted, id == seen.highest.value + WIDTH)
    else Seen(seen.highest, admitted, seen.blind && id != seen.highest.value - WIDTH)
  }

  ghost function After(ids: seq<nat>): Seen {
    if ids == [] then Seen(None, {}, false) else Next(After(ids[..|ids| - 1]), ids[|ids| - 1])
  }

  /** What a window that has been offered `ids` says to another. */
  ghost predicate Passes(ids: seq<nat>, id: nat) {
    var seen := After(ids);
    Acceptable(seen.highest, seen.admitted, seen.blind, id)
  }

  ghost predicate Kept(window: Window, ids: seq<nat>)
    reads window
  {
    window.Valid() && Seen(window.highest, window.admitted, window.blind) == After(ids)
  }

  method AdmitOn(window: Window, ghost ids: seq<nat>, id: nat) returns (taken: bool)
    requires Kept(window, ids)
    modifies window
    ensures Kept(window, ids + [id]) && (taken <==> Passes(ids, id))
  {
    taken := window.Admit(id);
    assert (ids + [id])[..|ids|] == ids;
  }

  /** The packets a session's window was asked about, from its opening on. */
  datatype Life = Life(session: nat, ids: seq<nat>)

  /** Which of the two lives still held is this session's. */
  ghost function HeldAt(lives: seq<Life>, session: nat): (at: Option<nat>)
    ensures at.Some? ==> at.value < |lives| && lives[at.value].session == session
  {
    if |lives| >= 1 && lives[|lives| - 1].session == session then Some(|lives| - 1)
    else if |lives| >= 2 && lives[|lives| - 2].session == session then Some(|lives| - 2)
    else None
  }

  /** A packet joins its session's life, or opens a new one. */
  ghost function Arriving(lives: seq<Life>, session: nat, id: nat): seq<Life> {
    match HeldAt(lives, session)
    case None => lives + [Life(session, [id])]
    case Some(at) => lives[at := Life(session, lives[at].ids + [id])]
  }

  datatype Packet = Packet(session: nat, id: nat)

  ghost function Lives(packets: seq<Packet>): seq<Life> {
    if packets == [] then []
    else
      var last := packets[|packets| - 1];
      Arriving(Lives(packets[..|packets| - 1]), last.session, last.id)
  }

  /** A packet of a session held passes as its window says; one of a session not
      held passes whatever its identifier. */
  ghost predicate PassesIn(lives: seq<Life>, packet: Packet) {
    var at := HeldAt(lives, packet.session);
    at.Some? ==> Passes(lives[at.value].ids, packet.id)
  }

  class Slot {
    const session: nat
    const window: Window

    constructor (session: nat)
      ensures this.session == session && fresh(window) && Kept(window, [])
    {
      this.session := session;
      window := new Window();
    }
  }

  /** The windows of the current and the previous server session. */
  class PacketSource {
    var current: Option<Slot>
    var previous: Option<Slot>

    /** Every session ever opened, in order. */
    ghost var lives: seq<Life>

    ghost predicate Holds(slot: Option<Slot>, back: nat)
      requires back >= 1
      reads this, if slot.Some? then {slot.value.window} else {}
    {
      && (slot.Some? <==> |lives| >= back)
      && (slot.Some? ==>
            slot.value.session == lives[|lives| - back].session && Kept(slot.value.window, lives[|lives| - back].ids))
    }

    ghost predicate Valid()
      reads this, if current.Some? then {current.value.window} else {}, if previous.Some? then {previous.value.window} else {}
    {
      && Holds(current, 1) && Holds(previous, 2)
      && (current.Some? && previous.Some? ==>
            current.value.window != previous.value.window && current.value.session != previous.value.session)
    }

    ghost function Windows(): set<object>
      reads this
    {
      (if current.Some? then {current.value.window} else {}) + (if previous.Some? then {previous.value.window} else {})
    }

    constructor ()
      ensures Valid() && lives == [] && current.None? && previous.None?
    {
      current, previous, lives := None, None, [];
    }

    method OnCurrent(id: nat) returns (taken: bool)
      requires Valid() && current.Some?
      modifies `lives, current.value.window
      ensures Valid() && lives == Arriving(old(lives), current.value.session, id)
      ensures taken <==> PassesIn(old(lives), Packet(current.value.session, id))
    {
      ghost var last := lives[|lives| - 1];
      taken := AdmitOn(current.value.window, last.ids, id);
      lives := lives[|lives| - 1 := Life(last.session, last.ids + [id])];
    }

    method OnPrevious(id: nat) returns (taken: bool)
      requires Valid() && previous.Some?
      modifies `lives, previous.value.window
      ensures Valid() && lives == Arriving(old(lives), previous.value.session, id)
      ensures taken <==> PassesIn(old(lives), Packet(previous.value.session, id))
    {
      ghost var last := lives[|lives| - 2];
      taken := AdmitOn(previous.value.window, last.ids, id);
      lives := lives[|lives| - 2 := Life(last.session, last.ids + [id])];
    }

    method OnNew(session: nat, id: nat) returns (taken: bool)
      requires Valid() && HeldAt(lives, session).None?
      modifies this
      ensures Valid() && lives == Arriving(old(lives), session, id)
      ensures taken && fresh(Windows() - old(Windows()))
    {
      var slot := new Slot(session);
      taken := AdmitOn(slot.window, [], id);
      assert [] + [id] == [id];
      current, previous := Some(slot), current;
      lives := lives + [Life(session, [id])];
    }

    /** `window(session).admit(id)`: a new session pushes the previous one out. */
    method Receive(session: nat, id: nat) returns (taken: bool)
      requires Valid()
      modifies this, Windows()
      ensures Valid() && lives == Arriving(old(lives), session, id)
      ensures taken <==> PassesIn(old(lives), Packet(session, id))
      ensures fresh(Windows() - old(Windows()))
    {
      if current.Some? && current.value.session == session {
        taken := OnCurrent(id);
      } else if previous.Some? && previous.value.session == session {
        taken := OnPrevious(id);
      } else {
        taken := OnNew(session, id);
      }
    }
  }

  ghost predicate AnsweredAt(packets: seq<Packet>, n: nat, answer: bool)
    requires n < |packets|
  {
    answer <==> PassesIn(Lives(packets[..n]), packets[n])
  }

  ghost predicate AllAnswered(packets: seq<Packet>, answers: seq<bool>)
    requires |answers| <= |packets|
  {
    forall n {:trigger AnsweredAt(packets, n, answers[n])} :: 0 <= n < |answers| ==> AnsweredAt(packets, n, answers[n])
  }

  lemma {:induction false} AnsweredOn(packets: seq<Packet>, answers: seq<bool>, taken: bool)
    requires |answers| < |packets| && AllAnswered(packets, answers) && AnsweredAt(packets, |answers|, taken)
    ensures AllAnswered(packets, answers + [taken])
  {
    var all := answers + [taken];
    forall n | 0 <= n < |all|
      ensures AnsweredAt(packets, n, all[n])
    {
      if n < |answers| {
        assert AnsweredAt(packets, n, answers[n]);
      }
    }
  }

  method ReceiveNext(source: PacketSource, packets: seq<Packet>, n: nat) returns (taken: bool)
    requires source.Valid() && n < |packets| && source.lives == Lives(packets[..n])
    modifies source, source.Windows()
    ensures source.Valid() && source.lives == Lives(packets[..n + 1]) && AnsweredAt(packets, n, taken)
    ensures fresh(source.Windows() - old(source.Windows()))
  {
    taken := source.Receive(packets[n].session, packets[n].id);
    assert packets[..n + 1][..n] == packets[..n];
  }

  /** Over every run each packet is answered by its session's window since the
      session was last opened. */
  method RunSessions(packets: seq<Packet>) returns (answers: seq<bool>)
    ensures |answers| == |packets| && AllAnswered(packets, answers)
  {
    var source := new PacketSource();
    answers := [];
    for n := 0 to |packets|
      invariant source.Valid() && fresh(source) && fresh(source.Windows()) && |answers| == n
      invariant source.lives == Lives(packets[..n])
      invariant AllAnswered(packets, answers)
    {
      var taken := ReceiveNext(source, packets, n);
      AnsweredOn(packets, answers, taken);
      answers := answers + [taken];
    }
  }

  /** Two lives of one session are three apart at least. */
  lemma {:induction false} LivesApart(packets: seq<Packet>, i: nat, j: nat)
    requires i < j < |Lives(packets)| && Lives(packets)[i].session == Lives(packets)[j].session
    ensures j >= i + 3
    decreases |packets|
  {
    var before := Lives(packets[..|packets| - 1]);
    if j < |before| {
      LivesApart(packets[..|packets| - 1], i, j);
    }
  }

  lemma {:induction false} NextMoves(seen: Seen, id: nat)
    ensures Moves(seen.highest, seen.blind, id, Next(seen, id).highest, Next(seen, id).blind)
  {
  }

  lemma {:induction false} AfterOn(ids: seq<nat>, n: nat)
    requires n < |ids|
    ensures After(ids[..n + 1]) == Next(After(ids[..n]), ids[n])
  {
    assert ids[..n + 1][..n] == ids[..n];
  }

  ghost predicate InStep(ids: seq<nat>, answers: seq<bool>, seen: Seen) {
    Tracks(ids, answers, seen.highest, seen.admitted, seen.blind)
  }

  lemma {:induction false} InStepOn(ids: seq<nat>, answers: seq<bool>, seen: Seen)
    requires InStep(ids, answers, seen) && |answers| < |ids| && Sane(seen)
    ensures var id := ids[|answers|];
            InStep(ids, answers + [Acceptable(seen.highest, seen.admitted, seen.blind, id)], Next(seen, id))
  {
    var id := ids[|answers|];
    NextMoves(seen, id);
    TracksOn(ids, answers, seen.highest, seen.admitted, seen.blind, Acceptable(seen.highest, seen.admitted, seen.blind, id),
             Next(seen, id).highest, Next(seen, id).admitted, Next(seen, id).blind);
  }

  /** Within a life an identifier passes twice exactly when the window replays. */
  lemma {:induction false} OnceInALife(ids: seq<nat>, n: nat)
    requires n <= |ids|
    ensures InStep(ids, Said(ids, n), After(ids[..n]))
    ensures OnceEach(ids, Said(ids, n)) <==> !Replays(ids, n)
  {
    if n > 0 {
      OnceInALife(ids, n - 1);
      WellSeen(ids[..n - 1]);
      AfterOn(ids, n - 1);
      InStepOn(ids, Said(ids, n - 1), After(ids[..n - 1]));
    }
  }

  /** What a window says to the first `n`. */
  ghost function Said(ids: seq<nat>, n: nat): (answers: seq<bool>)
    requires n <= |ids|
    ensures |answers| == n
  {
    if n == 0 then [] else Said(ids, n - 1) + [Passes(ids[..n - 1], ids[n - 1])]
  }

  ghost predicate Sane(seen: Seen) {
    && (seen.highest.Some? ==> seen.highest.value in seen.admitted && forall id <- seen.admitted :: id <= seen.highest.value)
    && (seen.highest.None? ==> seen.admitted == {})
    && (seen.blind ==> seen.highest.Some? && Known(seen.highest.value, seen.admitted, WIDTH))
  }

  lemma {:induction false} WellSeen(ids: seq<nat>)
    ensures Sane(After(ids))
  {
    if ids != [] {
      WellSeen(ids[..|ids| - 1]);
    }
  }

  // ------------------------------------------------------------ what a window says, from its history alone

  /** The window is blind to an identifier: the mark jumped from it by exactly 64,
      has not moved since, and the identifier has not come since. */
  ghost predicate BlindBy(ids: seq<nat>, n: nat, k: nat)
    requires n <= |ids|
  {
    && k < n && JumpAt(ids, k) && Mark(ids, n) == Some(ids[k])
    && forall m :: k < m < n ==> ids[m] != ids[k] - WIDTH
  }

  ghost predicate Blind(ids: seq<nat>, n: nat)
    requires n <= |ids|
  {
    exists k: nat :: BlindBy(ids, n, k)
  }

  lemma {:induction false} BlindExactly(ids: seq<nat>, n: nat)
    requires n <= |ids|
    ensures After(ids[..n]).highest == Mark(ids, n)
    ensures After(ids[..n]).blind <==> Blind(ids, n)
  {
    if n > 0 {
      BlindExactly(ids, n - 1);
      AfterOn(ids, n - 1);
      BlindOn(ids, n - 1);
    }
  }

  lemma {:induction false} BlindOn(ids: seq<nat>, n: nat)
    requires n < |ids|
    ensures var mark := Mark(ids, n);
      Blind(ids, n + 1) <==>
        if mark.None? || ids[n] > mark.value then JumpAt(ids, n)
        else ids[n] != mark.value - WIDTH && Blind(ids, n)
  {
    var mark, next := Mark(ids, n), n + 1;
    if mark.None? || ids[n] > mark.value {
      forall k: nat | k < n
        ensures !BlindBy(ids, next, k)
      {
        MarkBounds(ids, n, k);
      }
      assert JumpAt(ids, n) ==> BlindBy(ids, next, n);
    } else {
      assert forall k: nat :: BlindBy(ids, next, k) <==> BlindBy(ids, n, k) && ids[n] != mark.value - WIDTH;
    }
  }

  /** Within reach: not more than 64 below the mark. */
  ghost predicate Within(ids: seq<nat>, n: nat, id: nat)
    requires n <= |ids|
  {
    Mark(ids, n).None? || id >= Mark(ids, n).value - WIDTH
  }

  lemma {:induction false} OfferedOn(ids: seq<nat>, n: nat, id: nat)
    requires n < |ids|
    ensures Offered(ids, n + 1, id) <==> Offered(ids, n, id) || id == ids[n]
  {
    if i :| 0 <= i < n && ids[i] == id {
      assert 0 <= i < n + 1 && ids[i] == id;
    }
    if id == ids[n] {
      assert 0 <= n < n + 1 && ids[n] == id;
    }
  }

  /** Of the identifiers within reach, those admitted are those ever offered. */
  lemma {:induction false} AdmittedIsOffered(ids: seq<nat>, n: nat, id: nat)
    requires n <= |ids|
    ensures id in After(ids[..n]).admitted ==> Offered(ids, n, id)
    ensures Within(ids, n, id) && Offered(ids, n, id) ==> id in After(ids[..n]).admitted
  {
    if n > 0 {
      AdmittedIsOffered(ids, n - 1, id);
      BlindExactly(ids, n - 1);
      AfterOn(ids, n - 1);
      OfferedOn(ids, n - 1, id);
      WellSeen(ids[..n - 1]);
    }
  }

  /** What a window that was offered these says to another: yes exactly within
      reach, if it never was offered or is the one the window is blind to. */
  ghost predicate LetsThrough(ids: seq<nat>, id: nat) {
    && Within(ids, |ids|, id)
    && (Offered(ids, |ids|, id) ==> BlindTo(ids, id))
  }

  ghost predicate BlindTo(ids: seq<nat>, id: nat) {
    exists k: nat :: BlindBy(ids, |ids|, k) && id == ids[k] - WIDTH
  }

  lemma {:induction false} PassesExactly(ids: seq<nat>, id: nat)
    ensures Passes(ids, id) <==> LetsThrough(ids, id)
    ensures BlindTo(ids, id) ==> Within(ids, |ids|, id)
  {
    assert ids[..|ids|] == ids;
    BlindExactly(ids, |ids|);
    AdmittedIsOffered(ids, |ids|, id);
    WellSeen(ids);
    BlindToMark(ids, id);
    forall i: nat | i < |ids|
      ensures Mark(ids, |ids|).Some? && ids[i] <= Mark(ids, |ids|).value
    {
      MarkBounds(ids, |ids|, i);
    }
  }

  lemma {:induction false} BlindToMark(ids: seq<nat>, id: nat)
    ensures BlindTo(ids, id) <==>
              Blind(ids, |ids|) && Mark(ids, |ids|).Some? && id == Mark(ids, |ids|).value - WIDTH
  {
    if k: nat :| BlindBy(ids, |ids|, k) && id == ids[k] - WIDTH {
      assert Mark(ids, |ids|) == Some(ids[k]);
    }
    if k: nat :| BlindBy(ids, |ids|, k) && Mark(ids, |ids|).Some? && id == Mark(ids, |ids|).value - WIDTH {
      assert id == ids[k] - WIDTH;
    }
  }

  // ------------------------------------------------------------ what a source says, from its packets alone

  /** How many sessions were opened by the first `n` packets. */
  ghost function Opened(packets: seq<Packet>, n: nat): nat
    requires n <= |packets|
  {
    |Lives(packets[..n])|
  }

  /** Which opening packet `k` belongs to. */
  ghost function OpeningOf(packets: seq<Packet>, k: nat): nat
    requires k < |packets|
  {
    match HeldAt(Lives(packets[..k]), packets[k].session)
    case None => Opened(packets, k)
    case Some(at) => at
  }

  /** The identifiers among the first `n` packets that belong to an opening. */
  ghost function Offers(packets: seq<Packet>, n: nat, opening: nat): seq<nat>
    requires n <= |packets|
  {
    if n == 0 then []
    else Offers(packets, n - 1, opening)
         + (if OpeningOf(packets, n - 1) == opening then [packets[n - 1].id] else [])
  }

  lemma {:induction false} LivesOn(packets: seq<Packet>, n: nat)
    requires n < |packets|
    ensures Lives(packets[..n + 1]) == Arriving(Lives(packets[..n]), packets[n].session, packets[n].id)
  {
    assert packets[..n + 1][..n] == packets[..n];
  }

  /** The lives of a source are its openings, each with what was offered in it. */
  lemma {:induction false} LivesAre(packets: seq<Packet>, n: nat, opening: nat)
    requires n <= |packets|
    ensures opening < Opened(packets, n) ==> Lives(packets[..n])[opening].ids == Offers(packets, n, opening)
    ensures opening >= Opened(packets, n) ==> Offers(packets, n, opening) == []
  {
    if n > 0 {
      LivesAre(packets, n - 1, opening);
      LivesOn(packets, n - 1);
    }
  }

  /** A packet belongs to an opening of its own session. */
  lemma {:induction false} OpeningIsIts(packets: seq<Packet>, n: nat, k: nat)
    requires k < n <= |packets|
    ensures OpeningOf(packets, k) < Opened(packets, n)
    ensures Lives(packets[..n])[OpeningOf(packets, k)].session == packets[k].session
  {
    LivesOn(packets, n - 1);
    if k < n - 1 {
      OpeningIsIts(packets, n - 1, k);
    }
  }

  /** A session is forgotten exactly when two others have been opened since it was:
      until then its packets belong to the same opening, and after that to none
      that came before. */
  lemma {:induction false} ForgottenExactly(packets: seq<Packet>, i: nat, n: nat)
    requires i < n < |packets| && packets[i].session == packets[n].session
    ensures OpeningOf(packets, n) == OpeningOf(packets, i) <==> Opened(packets, n) < OpeningOf(packets, i) + 3
  {
    OpeningIsIts(packets, n, i);
    var a, lives := OpeningOf(packets, i), Lives(packets[..n]);
    if a + 1 < |lives| && lives[|lives| - 1].session == packets[n].session {
      LivesApart(packets[..n], a, |lives| - 1);
    }
  }

  lemma {:induction false} OffersHas(packets: seq<Packet>, n: nat, k: nat)
    requires k < n <= |packets|
    ensures var ids := Offers(packets, n, OpeningOf(packets, k)); Offered(ids, |ids|, packets[k].id)
  {
    var opening := OpeningOf(packets, k);
    var ids, before := Offers(packets, n, opening), Offers(packets, n - 1, opening);
    if k == n - 1 {
      assert ids[|before|] == packets[k].id;
    } else {
      OffersHas(packets, n - 1, k);
      var m :| 0 <= m < |before| && before[m] == packets[k].id;
      assert ids[m] == packets[k].id;
    }
  }

  /** When a packet passes that came before, from the packets alone. While fewer
      than two other sessions have been opened since its own was, exactly when the
      window is blind to it. After that, exactly when what its session was offered
      since it was opened again lets it through: it is within reach, and is not
      among that, or the window is blind to it. */
  lemma {:induction false} PassesAgainExactly(packets: seq<Packet>, answers: seq<bool>, i: nat, n: nat)
    requires |answers| == |packets| && AllAnswered(packets, answers)
    requires i < n < |packets| && packets[i] == packets[n]
    ensures var since := Offers(packets, n, OpeningOf(packets, n));
      answers[n] <==>
        if Opened(packets, n) < OpeningOf(packets, i) + 3 then BlindTo(since, packets[n].id)
        else LetsThrough(since, packets[n].id)
  {
    var opening, id := OpeningOf(packets, n), packets[n].id;
    var since := Offers(packets, n, opening);
    assert AnsweredAt(packets, n, answers[n]);
    LivesAre(packets, n, opening);
    PassesExactly(since, id);
    ForgottenExactly(packets, i, n);
    if OpeningOf(packets, i) == opening {
      OffersHas(packets, n, i);
    }
    assert HeldAt(Lives(packets[..n]), packets[n].session).None? ==> since == [];
  }

  /** The witness across sessions: one packet of each of two other sessions, and
      the same packet passes again. */
  method PassedAgain(session: nat, second: nat, third: nat, id: nat) returns (answers: seq<bool>)
    requires session != second && session != third && second != third
    ensures answers == [true, true, true, true]
  {
    var source := new PacketSource();
    var a := source.Receive(session, id);
    var b := source.Receive(second, id);
    var c := source.Receive(third, id);
    var d := source.Receive(session, id);
    answers := [a, b, c, d];
  }
}
