/**
Start verification: poll a status file until the manager is ready, has exited, is dead, or
the window closes; then decide whether a failure concerns this manager only. Each read of the
file, and each liveness answer, is an input: the file may change between two reads.
*/
module StartVerify {
  import opened Wrappers
  import opened Text

  const EXIT_OK := 0
  const EXIT_GLOBAL := 1
  const EXIT_MANAGER_SCOPED := 3
  const STALE_SLACK := 5_000_000    // microseconds

  const VALID_PHASES := {"starting", "connected", "running", "exited"}
  const READY_PHASES := {"connected", "running"}

  // ---- the status file ----

  /** A timestamp field: not a date, a date without a zone, or local time and its offset. */
  datatype Stamp = Garbled | Naive(local: int) | Aware(local: int, offset: int)

  datatype Status = Status(phase: string, managerKey: string, updatedAt: Stamp, reasonClass: string, error: string)

  /** One read of the file. */
  datatype Reading = Absent | Unreadable | Read(status: Status)

  /** Only a date with an offset is placed in time; a zone is never guessed. */
  function Utc(stamp: Stamp): Option<int> {
    if stamp.Aware? then Some(stamp.local - stamp.offset) else None
  }

  function PhaseOf(r: Reading): string { if r.Read? then Clean(r.status.phase) else "" }

  function Squeezed(s: string): string {
    if s == "" then "" else (if Space(s[0]) then "" else [s[0]]) + Squeezed(s[1..])
  }

  /** Blanks dropped, lower case, ё as е. */
  function NormalKey(s: string): string {
    var t := Lower(Squeezed(s));
    seq(|t|, i requires 0 <= i < |t| => if t[i] in {'ё', 'Ё'} then 'е' else t[i])
  }

  // ---- which failures are isolated ----

  datatype Outcome = Outcome(exit: int, classification: string, phase: string, reasonClass: string)

  const GLOBAL := Outcome(EXIT_GLOBAL, "global", "", "")

  /** Positive, self-consistent, fresh evidence that this manager crossed the shared boundary. */
  predicate Evidence(key: string, launch: int, r: Reading) {
    && r.Read? && Clean(r.status.phase) in VALID_PHASES && NormalKey(r.status.managerKey) == key
    && Utc(r.status.updatedAt).Some? && Utc(r.status.updatedAt).value >= launch - STALE_SLACK
  }

  function Labelled(known: set<string>, s: Status): Outcome {
    var reason := Strip(s.reasonClass);
    Outcome(EXIT_MANAGER_SCOPED, if Clean(reason) in known then "manager_scoped" else "unknown", Clean(s.phase), reason)
  }

  /** Every gate fails closed. */
  method ResolveStartFailure(known: set<string>, key: string, launch: int, r: Reading) returns (o: Outcome)
    ensures o.exit == EXIT_MANAGER_SCOPED <==> Evidence(key, launch, r)
    ensures o == if Evidence(key, launch, r) then Labelled(known, r.status) else GLOBAL
  {
    if !r.Read? { return GLOBAL; }
    var s := r.status;
    var phase := Clean(s.phase);
    if phase !in VALID_PHASES { return GLOBAL; }
    if NormalKey(s.managerKey) != key { return GLOBAL; }
    var updated := Utc(s.updatedAt);
    if updated.None? { return GLOBAL; }
    if updated.value < launch - STALE_SLACK { return GLOBAL; }
    o := Labelled(known, s);
  }

  // ---- the poll loop ----

  /** One poll: the file as read, the liveness answer, and the file as read again on failure. */
  datatype Poll = Poll(file: Reading, alive: Option<bool>, again: Reading)

  predicate Ready(p: Poll) { PhaseOf(p.file) in READY_PHASES }

  /** An exited phase, or death confirmed; an unknown answer is neither. */
  predicate Failed(p: Poll) { !Ready(p) && (PhaseOf(p.file) == "exited" || p.alive == Some(false)) }

  predicate Undecided(p: Poll) { !Ready(p) && !Failed(p) }

  /** The first poll that decides. */
  function Decisive(polls: seq<Poll>): (k: nat)
    ensures k <= |polls|
    ensures forall j :: 0 <= j < k ==> Undecided(polls[j])
    ensures k < |polls| ==> !Undecided(polls[k])
  {
    if polls == [] || !Undecided(polls[0]) then 0 else 1 + Decisive(polls[1..])
  }

  function Window(pollMax: int): nat { if pollMax > 1 then pollMax else 1 }

  /** The reading a failure is judged by: the second one of the failing poll, or the one after the window. */
  function Judged(polls: seq<Poll>, final: Reading): Reading {
    var k := Decisive(polls);
    if k < |polls| then polls[k].again else final
  }

  /** Success exactly when a ready phase comes before any exit or confirmed death. */
  predicate Started(polls: seq<Poll>) {
    var k := Decisive(polls);
    k < |polls| && Ready(polls[k])
  }

  method VerifyStart(known: set<string>, managerKey: string, launch: int, pollMax: int, polls: seq<Poll>,
          final: Reading)
    returns (o: Outcome, used: nat, stopped: bool)
    requires |polls| == Window(pollMax)
    ensures used <= Window(pollMax)
    ensures o.exit == EXIT_OK <==>
              exists i :: 0 <= i < |polls| && Ready(polls[i]) && forall j :: 0 <= j < i ==> !Failed(polls[j])
    ensures o.exit == EXIT_MANAGER_SCOPED <==>
              !Started(polls) && Evidence(NormalKey(managerKey), launch, Judged(polls, final))
    ensures o.exit == EXIT_MANAGER_SCOPED ==> o == Labelled(known, Judged(polls, final).status)
    ensures o.exit == EXIT_OK ==> o == Outcome(EXIT_OK, "started", PhaseOf(polls[Decisive(polls)].file), "")
    ensures o.exit in {EXIT_OK, EXIT_GLOBAL, EXIT_MANAGER_SCOPED}
    ensures o.exit == 1 ==> o == Outcome(1, "global", "", "")
    ensures stopped <==> forall p <- polls :: Undecided(p)
    ensures stopped ==> used == if pollMax < 1 then 1 else pollMax
    ensures used == if Decisive(polls) < |polls| then Decisive(polls) + 1 else |polls|
    ensures o.exit == Exit(managerKey, launch, polls, final)
  {
    var key := NormalKey(managerKey);
    var k := 0;
    FirstReady(polls);
    while k < Window(pollMax)
      invariant 0 <= k <= |polls|
      invariant forall j :: 0 <= j < k ==> Undecided(polls[j])
    {
      var p := polls[k];
      k := k + 1;
      if PhaseOf(p.file) in READY_PHASES {
        DecisiveIs(polls, k - 1);
        return Outcome(EXIT_OK, "started", PhaseOf(p.file), ""), k, false;
      }
      if PhaseOf(p.file) == "exited" {
        DecisiveIs(polls, k - 1);
        o := ResolveStartFailure(known, key, launch, p.again);
        return o, k, false;
      }
      if p.alive == Some(false) {
        DecisiveIs(polls, k - 1);
        o := ResolveStartFailure(known, key, launch, p.again);
        return o, k, false;
      }
    }
    used, stopped := k, true;
    o := ResolveStartFailure(known, key, launch, final);
  }

  lemma DecisiveIs(polls: seq<Poll>, k: nat)
    requires k < |polls| && !Undecided(polls[k]) && forall j :: 0 <= j < k ==> Undecided(polls[j])
    ensures Decisive(polls) == k && polls[k] in polls
  {
    assert polls[k] in polls;
    assert !(Decisive(polls) < k);
  }

  lemma FirstReady(polls: seq<Poll>)
    ensures Started(polls) <==>
              exists i :: 0 <= i < |polls| && Ready(polls[i]) && forall j :: 0 <= j < i ==> !Failed(polls[j])
  {
    var k := Decisive(polls);
    if i :| 0 <= i < |polls| && Ready(polls[i]) && forall j :: 0 <= j < i ==> !Failed(polls[j]) {
      assert !(i < k);
      assert !Undecided(polls[k]);
    }
  }

  // ---- what the exit code depends on ----

  function Exit(managerKey: string, launch: int, polls: seq<Poll>, final: Reading): int {
    if Started(polls) then EXIT_OK
    else if Evidence(NormalKey(managerKey), launch, Judged(polls, final)) then EXIT_MANAGER_SCOPED
    else EXIT_GLOBAL
  }

  /** Equal but for the reason class and the error text. */
  predicate SameButReason(r: Reading, s: Reading) {
    if r.Read? && s.Read? then r.status.(reasonClass := "", error := "") == s.status.(reasonClass := "", error := "")
    else r == s
  }

  predicate PollsSameButReason(ps: seq<Poll>, qs: seq<Poll>) {
    && |ps| == |qs|
    && forall i :: 0 <= i < |ps| ==>
         SameButReason(ps[i].file, qs[i].file) && SameButReason(ps[i].again, qs[i].again) && ps[i].alive == qs[i].alive
  }

  /** Two runs that decide the same polls the same way stop at the same poll. */
  lemma {:induction false} SameDecisive(ps: seq<Poll>, qs: seq<Poll>)
    requires |ps| == |qs|
    requires forall i :: 0 <= i < |ps| ==> Ready(ps[i]) == Ready(qs[i]) && Failed(ps[i]) == Failed(qs[i])
    ensures Decisive(ps) == Decisive(qs) && Started(ps) == Started(qs)
  {
    if ps != [] && Undecided(ps[0]) { SameDecisive(ps[1..], qs[1..]); }
  }

  /** The reason never decides: it only labels the outcome. */
  lemma ReasonNeverDecides(managerKey: string, launch: int, ps: seq<Poll>, qs: seq<Poll>, r: Reading, s: Reading)
    requires PollsSameButReason(ps, qs) && SameButReason(r, s)
    ensures Exit(managerKey, launch, ps, r) == Exit(managerKey, launch, qs, s)
  {
    SameDecisive(ps, qs);
  }

  /**
  Whether a start succeeds is settled by the phases read and the liveness answers, and by nothing
  else in the files.
  */
  lemma SuccessIsPhaseAlone(ps: seq<Poll>, qs: seq<Poll>)
    requires |ps| == |qs|
    requires forall i :: 0 <= i < |ps| ==> PhaseOf(ps[i].file) == PhaseOf(qs[i].file) && ps[i].alive == qs[i].alive
    ensures Started(ps) == Started(qs)
  {
    SameDecisive(ps, qs);
  }

  /** The polls as they would be had every unanswered liveness scan answered `alive`. */
  function Answered(polls: seq<Poll>): (r: seq<Poll>)
    ensures |r| == |polls|
    ensures forall i :: 0 <= i < |polls| ==>
              r[i] == if polls[i].alive.None? then polls[i].(alive := Some(true)) else polls[i]
  {
    seq(|polls|, i requires 0 <= i < |polls| =>
      if polls[i].alive.None? then polls[i].(alive := Some(true)) else polls[i])
  }

  /** An untrusted scan counts as life: it neither ends the loop nor changes its verdict. */
  lemma UnknownIsNotDeath(managerKey: string, launch: int, polls: seq<Poll>, final: Reading)
    ensures Decisive(Answered(polls)) == Decisive(polls)
    ensures Exit(managerKey, launch, Answered(polls), final) == Exit(managerKey, launch, polls, final)
  {
    SameDecisive(polls, Answered(polls));
  }

  /** With no file that parses, whatever the liveness answers, the failure is global. */
  lemma NoFileIsGlobal(managerKey: string, launch: int, polls: seq<Poll>, final: Reading)
    requires !final.Read? && forall p <- polls :: !p.file.Read? && !p.again.Read?
    ensures Exit(managerKey, launch, polls, final) == EXIT_GLOBAL
  {
    var k := Decisive(polls);
    if k < |polls| { assert polls[k] in polls; }
  }

  /**
  Success asks for a ready phase and nothing else: unlike isolation, it checks neither the
  owner of the file nor its age, so a file left over from an earlier launch is enough.
  */
  lemma LeftoverReadyFileSucceeds(managerKey: string, launch: int, owner: string, stamp: Stamp, rest: seq<Poll>,
          final: Reading)
    ensures var file := Read(Status("running", owner, stamp, "", ""));
            && Exit(managerKey, launch, [Poll(file, Some(false), Absent)] + rest, final) == EXIT_OK
            && (NormalKey(owner) != NormalKey(managerKey) || Utc(stamp).None? || Utc(stamp).value < launch - STALE_SLACK
                ==> !Evidence(NormalKey(managerKey), launch, file))
  {
    var file := Read(Status("running", owner, stamp, "", ""));
    PlainIsClean("running");
    DecisiveIs([Poll(file, Some(false), Absent)] + rest, 0);
  }

  lemma {:induction false} KeysAreNormalOnce(s: string)
    ensures NormalKey(NormalKey(s)) == NormalKey(s)
  {
    SqueezedHasNoBlanks(s);
    var t := Lower(Squeezed(s));
    var n := NormalKey(s);
    assert forall i :: 0 <= i < |n| ==> !Space(n[i]) && !Upper(n[i]);
    NothingToSqueeze(n);
    assert Lower(n) == n;
  }

  lemma {:induction false} SqueezedHasNoBlanks(s: string)
    ensures forall c <- Squeezed(s) :: !Space(c)
  {
    if s != "" { SqueezedHasNoBlanks(s[1..]); }
  }

  lemma {:induction false} NothingToSqueeze(s: string)
    requires forall c <- s :: !Space(c)
    ensures Squeezed(s) == s
  {
    if s != "" {
      NothingToSqueeze(s[1..]);
      assert s == [s[0]] + s[1..];
    }
  }

  // ---- the verdict in words ----

  predicate SaysReady(r: Reading) { r.Read? && Clean(r.status.phase) in {"connected", "running"} }

  /** The manager says it has exited, or is seen dead. */
  predicate SaysOver(p: Poll) {
    !SaysReady(p.file) && ((p.file.Read? && Clean(p.file.status.phase) == "exited") || p.alive == Some(false))
  }

  /** The file is this manager's own, of a known phase, and no more than five seconds older than the launch. */
  predicate OwnAndFresh(managerKey: string, launch: int, r: Reading) {
    && r.Read? && Clean(r.status.phase) in {"starting", "connected", "running", "exited"}
    && NormalKey(r.status.managerKey) == NormalKey(managerKey)
    && r.status.updatedAt.Aware?
    && r.status.updatedAt.local >= launch + r.status.updatedAt.offset - 5000000
  }

  /**
  Exit 0: some poll says ready before any says it is over. Exit 3: the first poll to say anything says it
  is over and the file, read again, is the manager's own and fresh; or no poll says anything and the file
  read after the window is. Exit 1: otherwise.
  */
  lemma VerdictInWords(managerKey: string, launch: int, polls: seq<Poll>, final: Reading)
    ensures var o := Exit(managerKey, launch, polls, final);
            && (o == 0 <==>
                  exists i :: 0 <= i < |polls| && SaysReady(polls[i].file)
                    && forall j :: 0 <= j < i ==> !SaysOver(polls[j]))
            && (o == 3 <==>
                  || (exists i :: 0 <= i < |polls| && SaysOver(polls[i])
                        && OwnAndFresh(managerKey, launch, polls[i].again)
                        && forall j :: 0 <= j < i ==> !SaysOver(polls[j]) && !SaysReady(polls[j].file))
                  || ((forall p <- polls :: !SaysOver(p) && !SaysReady(p.file))
                        && OwnAndFresh(managerKey, launch, final)))
            && o in {0, 1, 3}
  {
    Blank();
    forall p ensures Ready(p) == SaysReady(p.file) && Failed(p) == SaysOver(p) { PollInWords(p); }
    FirstReady(polls);
    var k := Decisive(polls);
    forall i | 0 <= i < |polls| && SaysOver(polls[i]) && forall j :: 0 <= j < i ==> Undecided(polls[j]) ensures k == i {
      DecisiveIs(polls, i);
    }
  }

  lemma Blank()
    ensures "" !in READY_PHASES && "" != "exited"
  {
    assert forall s <- READY_PHASES :: |s| > 0;
  }

  lemma PollInWords(p: Poll)
    ensures Ready(p) == SaysReady(p.file) && Failed(p) == SaysOver(p)
  {
    Blank();
  }

  /** A label only: the phase and the reason of the file judged, scoped to the manager if the reason is a known one. */
  lemma LabelInWords(known: set<string>, s: Status)
    ensures var o := Labelled(known, s);
            && o.exit == 3 && o.phase == Clean(s.phase) && o.reasonClass == Strip(s.reasonClass)
            && (o.classification == "manager_scoped" <==> Clean(Strip(s.reasonClass)) in known)
            && (o.classification == "unknown" <==> Clean(Strip(s.reasonClass)) !in known)
  {
    assert "manager_scoped"[0] == 'm' && "unknown"[0] == 'u';
  }

  /** Local time and offset: the same moment written in two zones is one moment. */
  lemma ZonesAgree(utc: int, a: int, b: int)
    ensures Utc(Aware(utc + a, a)) == Utc(Aware(utc + b, b)) == Some(utc)
    ensures Utc(Naive(utc)) == Utc(Garbled) == None
  {
  }

  /** Keys are normalized letter by letter: blanks vanish, capitals become small, ё becomes е. */
  lemma {:induction false} KeysLetterByLetter(a: string, b: string)
    ensures NormalKey(a + b) == NormalKey(a) + NormalKey(b)
  {
    SqueezedOfBoth(a, b);
  }

  lemma {:induction false} SqueezedOfBoth(a: string, b: string)
    ensures Squeezed(a + b) == Squeezed(a) + Squeezed(b)
  {
    if a == "" {
      assert a + b == b;
    } else {
      assert (a + b)[1..] == a[1..] + b;
      SqueezedOfBoth(a[1..], b);
    }
  }

  lemma KeyOfOneLetter(c: char)
    ensures c in " \t\n\r" ==> NormalKey([c]) == ""
    ensures c in "ёЁ" ==> NormalKey([c]) == "е"
    ensures 'a' <= c <= 'z' || '0' <= c <= '9' || c in "_-" ==> NormalKey([c]) == [c]
    ensures 'A' <= c <= 'Z' ==> NormalKey([c]) == [c + 32 as char]
  {
    assert [c][1..] == "" && Squeezed("") == "";
    assert Squeezed([c]) == if Space(c) then "" else [c];
  }
}
