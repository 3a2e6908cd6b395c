/** Which keys a tap dance sends, from the presses and releases of its key alone. */
module TapDanceKeys {
  import opened Basics
  import opened TapDance

  // ---------- what one dance sends ----------

  /** What dance i has sent. */
  function Acts(out: seq<Output>, i: nat): seq<Act> {
    if out == [] then []
    else
      var o := out[|out| - 1];
      Acts(out[..|out| - 1], i) + if o.dance == i then [o.act] else []
  }

  lemma {:induction false} ActsSay(out: seq<Output>, i: nat, acts: seq<Act>, j: nat)
    ensures Acts(Say(out, i, acts), j) == Acts(out, j) + if i == j then acts else []
  {
    if acts != [] {
      var front, last := acts[..|acts| - 1], acts[|acts| - 1];
      ActsSay(out, i, front, j);
      assert (Say(out, i, front) + [Output(i, last)])[..|Say(out, i, front)|] == Say(out, i, front);
      assert acts == front + [last];
    }
  }

  /** Key k goes down; 0 stands for no key. */
  function Goes(k: Keycode): seq<Act> { if k == 0 then [] else [Down(k)] }
  function Comes(k: Keycode): seq<Act> { if k == 0 then [] else [Up(k)] }

  // ---------- a dance under way ----------

  /** Dance i is under way, or about to start if c is 0, after c presses. */
  predicate Dancing(s: State, i: nat, e: Entry, c: Count, pressed: bool) {
    && i < |s.dances| && s.dances[i] == Dance(e, c, pressed, false, false, NoPhase)
    && s.active == if c == 0 then -1 else i
  }

  /** From s to t, dance i has sent these. */
  predicate Sent(s: State, t: State, i: nat, acts: seq<Act>) {
    Acts(t.out, i) == Acts(s.out, i) + acts
  }

  lemma Presses(s: State, i: nat, e: Entry, c: Count)
    requires Dancing(s, i, e, c, false) && c < 255
    ensures var t := Step(s, Press(i));
      Dancing(t, i, e, c + 1, true) && Sent(s, t, i, OnDance(e, c + 1))
  {
    assert Preprocess(s, i) == s;
    Counted(s, i, e, c);
  }

  lemma Counted(s: State, i: nat, e: Entry, c: Count)
    requires Dancing(s, i, e, c, false) && c < 255
    ensures var t := TapPressed(s, i);
      Dancing(t, i, e, c + 1, true) && Sent(s, t, i, OnDance(e, c + 1))
  {
    ActsSay(s.out, i, OnDance(e, c + 1), i);
  }

  /** The two cases in which the release decides. */
  predicate Early(e: Entry, c: Count) {
    || (c == 1 && e.onTap != 0 && e.onHold != 0 && e.onDoubleTap == 0 && e.onTapHold == 0)
    || (c == 2 && e.onDoubleTap != 0)
  }

  lemma ReleasesLate(s: State, i: nat, e: Entry, c: Count)
    requires Dancing(s, i, e, c, true) && c > 0 && !Early(e, c)
    ensures var t := Step(s, Release(i));
      Dancing(t, i, e, c, false) && Sent(s, t, i, [])
  {
  }

  lemma RunOneMore(s: State, cs: seq<Command>, c: Command)
    ensures Run(s, cs + [c]) == Step(Run(s, cs), c)
  {
    assert (cs + [c])[..|cs|] == cs;
  }

  lemma RunTwo(s: State, a: Command, b: Command)
    ensures Run(s, [a, b]) == Step(Step(s, a), b)
  {
    RunOneMore(s, [], a);
    RunOneMore(s, [a], b);
    assert [] + [a] == [a] && [a] + [b] == [a, b];
  }

  lemma RunThree(s: State, a: Command, b: Command, c: Command)
    ensures Run(s, [a, b, c]) == Step(Run(s, [a, b]), c)
  {
    RunOneMore(s, [a, b], c);
    assert [a, b] + [c] == [a, b, c];
  }

  lemma RunFour(s: State, a: Command, b: Command, c: Command, d: Command)
    ensures Run(s, [a, b, c, d]) == Run(Run(s, [a, b]), [c, d])
  {
    RunThree(s, a, b, c);
    RunOneMore(s, [a, b, c], d);
    RunTwo(Run(s, [a, b]), c, d);
    assert [a, b, c] + [d] == [a, b, c, d];
  }

  lemma RunFive(s: State, a: Command, b: Command, c: Command, d: Command, e: Command)
    ensures Run(s, [a, b, c, d, e]) == Run(Run(s, [a, b]), [c, d, e])
  {
    RunFour(s, a, b, c, d);
    RunOneMore(s, [a, b, c, d], e);
    RunThree(Run(s, [a, b]), c, d, e);
    assert [a, b, c, d] + [e] == [a, b, c, d, e];
  }

  lemma SentOn(s: State, t: State, u: State, i: nat, a: seq<Act>, b: seq<Act>)
    requires Sent(s, t, i, a) && Sent(t, u, i, b)
    ensures Sent(s, u, i, a + b)
  {
    assert Acts(s.out, i) + a + b == Acts(s.out, i) + (a + b);
  }

  // ---------- the end of a dance ----------

  /** Another key goes down, a dance or not. */
  predicate Other(s: State, i: nat, c: Command) {
    c.OtherPress? || (c.Press? && c.i != i && c.i < |s.dances|)
  }

  /** The command ends the dance: its term is over, or another key goes down. */
  predicate Ends(s: State, i: nat, c: Command) { c == Timeout || Other(s, i, c) }

  /** The phase a dance is decided for. */
  function Decided(c: Count, pressed: bool, interrupted: bool): Phase {
    DanceStep(Dance(Entry(0, 0, 0, 0), c, pressed, false, interrupted, NoPhase))
  }

  /** The key of the dance is still down when it is decided. */
  predicate HeldOn(t: State, i: nat, e: Entry, p: Phase) {
    && i < |t.dances| && t.dances[i].entry == e && t.dances[i].pressed && t.dances[i].finished
    && t.dances[i].phase == p
  }

  lemma PutSends(s: State, i: nat, d: Dance, acts: seq<Act>, active: int)
    requires i < |s.dances|
    ensures Sent(s, TapDance.Put(s, i, d, acts).(active := active), i, acts)
  {
    ActsSay(s.out, i, acts, i);
  }

  lemma FinishSends(s: State, i: nat, e: Entry, c: Count, pressed: bool, interrupted: bool)
    requires i < |s.dances| && s.dances[i] == Dance(e, c, pressed, false, interrupted, NoPhase)
    ensures var p, t := Decided(c, pressed, interrupted), Finish(s, i);
      && t.active == -1
      && Sent(s, t, i, OnFinished(e, p) + if pressed then [] else OnReset(e, p))
      && if pressed then HeldOn(t, i, e, p) else t.dances[i] == Blank(e)
  {
    var p := Decided(c, pressed, interrupted);
    var d := s.dances[i].(finished := true, phase := p);
    var r := TapDance.Put(s, i, d, OnFinished(e, p)).(active := -1);
    assert r == Decide(s, i).(active := -1);
    PutSends(s, i, d, OnFinished(e, p), -1);
    if pressed {
      assert OnFinished(e, p) + [] == OnFinished(e, p);
    } else {
      PutSends(r, i, Blank(e), OnReset(e, p), -1);
      SentOn(s, r, ResetDance(r, i), i, OnFinished(e, p), OnReset(e, p));
    }
  }

  /** Another dance that starts sends nothing for this one. */
  lemma StartsOther(s: State, i: nat, j: nat)
    requires i < |s.dances| && j < |s.dances| && i != j
    ensures var t := TapPressed(s, j); t.dances[i] == s.dances[i] && Sent(s, t, i, [])
  {
    var c: Count := (s.dances[j].count + 1) % 256;
    ActsSay(s.out, j, OnDance(s.dances[j].entry, c), i);
  }

  lemma Ending(s: State, i: nat, e: Entry, c: Count, pressed: bool, end: Command)
    requires Dancing(s, i, e, c, pressed) && c > 0 && Ends(s, i, end)
    ensures var p, t := Decided(c, pressed, end != Timeout), Step(s, end);
      && Sent(s, t, i, OnFinished(e, p) + if pressed then [] else OnReset(e, p))
      && if pressed then HeldOn(t, i, e, p) else t.dances[i] == Blank(e)
  {
    if end == Timeout {
      FinishSends(s, i, e, c, pressed, false);
    } else {
      var s' := s.(dances := s.dances[i := s.dances[i].(interrupted := true)]);
      FinishSends(s', i, e, c, pressed, true);
      if end.Press? { StartsOther(Finish(s', i), i, end.i); }
    }
  }

  lemma Letting(t: State, i: nat, e: Entry, p: Phase)
    requires HeldOn(t, i, e, p)
    ensures var u := Step(t, Release(i)); u.dances[i] == Blank(e) && Sent(t, u, i, OnReset(e, p))
  {
    ActsSay(t.out, i, OnReset(e, p), i);
  }

  // ---------- which keys ----------

  /** From s to t the dance has sent `taps` and holds k down, until its own key goes up. */
  predicate HoldsKey(s: State, t: State, i: nat, e: Entry, taps: seq<Act>, k: Keycode)
    requires i < |t.dances|
  {
    var u := Step(t, Release(i));
    && Sent(s, t, i, taps + Goes(k))
    && Sent(s, u, i, taps + Goes(k) + Comes(k)) && u.dances[i] == Blank(e)
  }

  /** From s to t the dance has sent `taps` and a stroke of k, and is over. */
  predicate Strikes(s: State, t: State, i: nat, e: Entry, taps: seq<Act>, k: Keycode) {
    i < |t.dances| && Sent(s, t, i, taps + Goes(k) + Comes(k)) && t.dances[i] == Blank(e)
  }

  lemma HoldsThen(s: State, t: State, i: nat, e: Entry, p: Phase, taps: seq<Act>, k: Keycode)
    requires HeldOn(t, i, e, p) && Sent(s, t, i, OnFinished(e, p))
    requires OnFinished(e, p) == taps + Goes(k) && OnReset(e, p) == Comes(k)
    ensures HoldsKey(s, t, i, e, taps, k)
  {
    Letting(t, i, e, p);
    SentOn(s, t, Step(t, Release(i)), i, OnFinished(e, p), OnReset(e, p));
  }

  /** Another press, and the end before its release. */
  lemma HeldFrom(s: State, t: State, i: nat, e: Entry, c: Count, end: Command)
    requires Dancing(t, i, e, c, false) && c < 2 && Sent(s, t, i, []) && Ends(t, i, end)
    ensures var p, u := Decided(c + 1, true, end != Timeout), Run(t, [Press(i), end]);
      HeldOn(u, i, e, p) && Sent(s, u, i, OnFinished(e, p))
  {
    var u := Step(t, Press(i));
    RunTwo(t, Press(i), end);
    Presses(t, i, e, c);
    SentOn(s, t, u, i, [], []);
    HeldAtEnd(s, u, i, e, c + 1, end);
  }

  lemma HeldAtEnd(s: State, u: State, i: nat, e: Entry, c: Count, end: Command)
    requires Dancing(u, i, e, c, true) && c > 0 && Sent(s, u, i, []) && Ends(u, i, end)
    ensures var p, v := Decided(c, true, end != Timeout), Step(u, end);
      HeldOn(v, i, e, p) && Sent(s, v, i, OnFinished(e, p))
  {
    var p := Decided(c, true, end != Timeout);
    Ending(u, i, e, c, true, end);
    assert OnFinished(e, p) + [] == OnFinished(e, p) && [] + OnFinished(e, p) == OnFinished(e, p);
    SentOn(s, u, Step(u, end), i, [], OnFinished(e, p));
  }

  lemma HoldsFrom(s: State, t: State, i: nat, e: Entry, c: Count, end: Command, taps: seq<Act>, k: Keycode)
    requires Dancing(t, i, e, c, false) && c < 2 && Sent(s, t, i, []) && Ends(t, i, end)
    requires var p := Decided(c + 1, true, end != Timeout);
      OnFinished(e, p) == taps + Goes(k) && OnReset(e, p) == Comes(k)
    ensures |Run(t, [Press(i), end]).dances| == |t.dances|
    ensures HoldsKey(s, Run(t, [Press(i), end]), i, e, taps, k)
  {
    HeldFrom(s, t, i, e, c, end);
    HoldsThen(s, Run(t, [Press(i), end]), i, e, Decided(c + 1, true, end != Timeout), taps, k);
  }

  /** Held for the term: the hold key, or else the tap key. */
  lemma HeldOnce(s: State, i: nat, e: Entry)
    requires Dancing(s, i, e, 0, false)
    ensures HoldsKey(s, Run(s, [Press(i), Timeout]), i, e, [], if e.onHold != 0 then e.onHold else e.onTap)
  {
    HoldsFrom(s, s, i, e, 0, Timeout, [], if e.onHold != 0 then e.onHold else e.onTap);
  }

  /** Held when another key goes down: the tap key. */
  lemma InterruptedOnce(s: State, i: nat, e: Entry, other: Command)
    requires Dancing(s, i, e, 0, false) && Other(s, i, other)
    ensures HoldsKey(s, Run(s, [Press(i), other]), i, e, [], e.onTap)
  {
    HoldsFrom(s, s, i, e, 0, other, [], e.onTap);
  }

  /** The release decides at once. */
  lemma ReleasesEarly(s: State, i: nat, e: Entry, c: Count)
    requires Dancing(s, i, e, c, true) && c > 0 && Early(e, c)
    ensures var p, t := Decided(c, false, false), Step(s, Release(i));
      t.dances[i] == Blank(e) && t.active == -1 && Sent(s, t, i, OnFinished(e, p) + OnReset(e, p))
  {
    var s' := s.(dances := s.dances[i := s.dances[i].(pressed := false)]);
    FinishSends(s', i, e, c, false, false);
  }

  /** A dance that is over sends nothing more. */
  lemma StaysOver(t: State, i: nat, e: Entry, end: Command)
    requires i < |t.dances| && t.dances[i] == Blank(e) && t.active == -1 && Ends(t, i, end)
    ensures Step(t, end).dances[i] == Blank(e) && Sent(t, Step(t, end), i, [])
  {
    if end.Press? { StartsOther(t, i, end.i); }
  }

  /** A tap of the key that does not end the dance. */
  lemma OneMoreTap(s: State, i: nat, e: Entry, c: Count)
    requires Dancing(s, i, e, c, false) && c < 255 && !Early(e, c + 1)
    ensures var t := Run(s, [Press(i), Release(i)]);
      Dancing(t, i, e, c + 1, false) && Sent(s, t, i, OnDance(e, c + 1))
  {
    var t := Step(s, Press(i));
    RunTwo(s, Press(i), Release(i));
    Presses(s, i, e, c);
    ReleasesLate(t, i, e, c + 1);
    SentOn(s, t, Step(t, Release(i)), i, OnDance(e, c + 1), []);
    assert OnDance(e, c + 1) + [] == OnDance(e, c + 1);
  }

  /** What a dance decided for a released key sends. */
  function Stroke(e: Entry, p: Phase): seq<Act> { OnFinished(e, p) + OnReset(e, p) }

  /** A tap of the key that ends the dance. */
  lemma LastTap(s: State, i: nat, e: Entry, c: Count)
    requires Dancing(s, i, e, c, false) && c < 2 && Early(e, c + 1)
    ensures var t := Run(s, [Press(i), Release(i)]);
      Over(t, i, e) && Sent(s, t, i, Stroke(e, Decided(c + 1, false, false)))
  {
    var acts, t := Stroke(e, Decided(c + 1, false, false)), Step(s, Press(i));
    RunTwo(s, Press(i), Release(i));
    Presses(s, i, e, c);
    ReleasesEarly(t, i, e, c + 1);
    SentOn(s, t, Step(t, Release(i)), i, [], acts);
    assert [] + acts == acts;
  }

  predicate Over(t: State, i: nat, e: Entry) {
    i < |t.dances| && t.dances[i] == Blank(e) && t.active == -1
  }

  lemma EndsLate(s: State, t: State, i: nat, e: Entry, c: Count, end: Command, sent: seq<Act>)
    requires Dancing(t, i, e, c, false) && c > 0 && Ends(t, i, end) && Sent(s, t, i, sent)
    ensures var u := Step(t, end);
      u.dances[i] == Blank(e) && Sent(s, u, i, sent + Stroke(e, Decided(c, false, end != Timeout)))
  {
    Ending(t, i, e, c, false, end);
    SentOn(s, t, Step(t, end), i, sent, Stroke(e, Decided(c, false, end != Timeout)));
  }

  lemma EndsOver(s: State, t: State, i: nat, e: Entry, end: Command, sent: seq<Act>)
    requires Over(t, i, e) && Ends(t, i, end) && Sent(s, t, i, sent)
    ensures Sent(s, Step(t, end), i, sent) && Step(t, end).dances[i] == Blank(e)
  {
    StaysOver(t, i, e, end);
    SentOn(s, t, Step(t, end), i, sent, []);
    assert sent + [] == sent;
  }

  /** A dance the last tap ended sends this, and nothing more when its term would be over. */
  lemma EndedEarly(s: State, t: State, i: nat, e: Entry, c: Count, end: Command)
    requires Dancing(t, i, e, c, false) && c < 2 && Early(e, c + 1) && Sent(s, t, i, []) && Ends(t, i, end)
    ensures var acts, u := Stroke(e, Decided(c + 1, false, false)), Run(t, [Press(i), Release(i)]);
      && Over(u, i, e) && Sent(s, u, i, acts)
      && Sent(s, Run(t, [Press(i), Release(i), end]), i, acts)
      && Run(t, [Press(i), Release(i), end]).dances[i] == Blank(e)
  {
    var acts, u := Stroke(e, Decided(c + 1, false, false)), Run(t, [Press(i), Release(i)]);
    LastTap(t, i, e, c);
    SentOn(s, t, u, i, [], acts);
    assert [] + acts == acts;
    EndsOver(s, u, i, e, end, acts);
    RunThree(t, Press(i), Release(i), end);
  }

  /** Otherwise it sends this when it ends. */
  lemma EndedLate(s: State, t: State, i: nat, e: Entry, c: Count, end: Command)
    requires Dancing(t, i, e, c, false) && c < 2 && !Early(e, c + 1) && Sent(s, t, i, []) && Ends(t, i, end)
    ensures var acts, u := Stroke(e, Decided(c + 1, false, end != Timeout)), Run(t, [Press(i), Release(i)]);
      && Dancing(u, i, e, c + 1, false) && Sent(s, u, i, [])
      && Sent(s, Run(t, [Press(i), Release(i), end]), i, acts)
      && Run(t, [Press(i), Release(i), end]).dances[i] == Blank(e)
  {
    var acts, u := Stroke(e, Decided(c + 1, false, end != Timeout)), Run(t, [Press(i), Release(i)]);
    OneMoreTap(t, i, e, c);
    SentOn(s, t, u, i, [], []);
    EndsLate(s, u, i, e, c + 1, end, []);
    assert [] + acts == acts;
    RunThree(t, Press(i), Release(i), end);
  }

  /** Tapped once: a stroke of the tap key, at the release already if only tap and hold key
      are set, else when the dance ends, in whatever way. */
  lemma TappedOnce(s: State, i: nat, e: Entry, end: Command)
    requires Dancing(s, i, e, 0, false) && Ends(s, i, end)
    ensures Strikes(s, Run(s, [Press(i), Release(i), end]), i, e, [], e.onTap)
    ensures if Early(e, 1) then Strikes(s, Run(s, [Press(i), Release(i)]), i, e, [], e.onTap)
            else Sent(s, Run(s, [Press(i), Release(i)]), i, [])
  {
    assert Stroke(e, SingleTap) == [] + Goes(e.onTap) + Comes(e.onTap);
    if Early(e, 1) { EndedEarly(s, s, i, e, 0, end); } else { EndedLate(s, s, i, e, 0, end); }
  }

  lemma HoldsSecond(s: State, i: nat, e: Entry, end: Command, taps: seq<Act>, k: Keycode)
    requires Dancing(s, i, e, 0, false) && !Early(e, 1) && Ends(s, i, end)
    requires var p := Decided(2, true, end != Timeout);
      OnFinished(e, p) == taps + Goes(k) && OnReset(e, p) == Comes(k)
    ensures HoldsKey(s, Run(s, [Press(i), Release(i), Press(i), end]), i, e, taps, k)
  {
    OneMoreTap(s, i, e, 0);
    RunFour(s, Press(i), Release(i), Press(i), end);
    HoldsFrom(s, Run(s, [Press(i), Release(i)]), i, e, 1, end, taps, k);
  }

  /** What a dance held at its second press sends before the key it holds, and that key. */
  function TapsFirst(e: Entry): seq<Act> {
    if e.onTapHold == 0 && e.onTap != 0 then [Tap(e.onTap)] else []
  }

  function SecondHold(e: Entry): Keycode {
    if e.onTapHold != 0 then e.onTapHold else if e.onHold != 0 then e.onHold else e.onTap
  }

  lemma SecondHoldSends(e: Entry)
    ensures OnFinished(e, DoubleHold) == TapsFirst(e) + Goes(SecondHold(e))
    ensures OnReset(e, DoubleHold) == Comes(SecondHold(e))
  {
  }

  /** Tapped and then held for the term: the tap-hold key, or else the tap key and then the
      hold key, or the tap key again. */
  lemma HeldTwice(s: State, i: nat, e: Entry)
    requires Dancing(s, i, e, 0, false) && !Early(e, 1)
    ensures HoldsKey(s, Run(s, [Press(i), Release(i), Press(i), Timeout]), i, e, TapsFirst(e), SecondHold(e))
  {
    SecondHoldSends(e);
    HoldsSecond(s, i, e, Timeout, TapsFirst(e), SecondHold(e));
  }

  /** The first of two strokes of the tap key. */
  function FirstTap(e: Entry): seq<Act> { if e.onTap != 0 then [Tap(e.onTap)] else [] }

  lemma InterruptedSends(e: Entry)
    ensures OnFinished(e, DoubleSingleTap) == FirstTap(e) + Goes(e.onTap)
    ensures OnReset(e, DoubleSingleTap) == Comes(e.onTap)
  {
  }

  /** Tapped and then held when another key goes down: the tap key twice. */
  lemma InterruptedTwice(s: State, i: nat, e: Entry, other: Command)
    requires Dancing(s, i, e, 0, false) && !Early(e, 1) && Other(s, i, other)
    ensures HoldsKey(s, Run(s, [Press(i), Release(i), Press(i), other]), i, e, FirstTap(e), e.onTap)
  {
    InterruptedSends(e);
    HoldsSecond(s, i, e, other, FirstTap(e), e.onTap);
  }

  /** Tapped twice with a double-tap key: a stroke of that at the second release. */
  lemma DoubleTapped(s: State, i: nat, e: Entry, end: Command)
    requires Dancing(s, i, e, 0, false) && e.onDoubleTap != 0 && Ends(s, i, end)
    ensures Strikes(s, Run(s, [Press(i), Release(i), Press(i), Release(i)]), i, e, [], e.onDoubleTap)
    ensures Strikes(s, Run(s, [Press(i), Release(i), Press(i), Release(i), end]), i, e, [], e.onDoubleTap)
  {
    OneMoreTap(s, i, e, 0);
    assert Stroke(e, DoubleTap) == [] + Goes(e.onDoubleTap) + Comes(e.onDoubleTap);
    RunFour(s, Press(i), Release(i), Press(i), Release(i));
    RunFive(s, Press(i), Release(i), Press(i), Release(i), end);
    EndedEarly(s, Run(s, [Press(i), Release(i)]), i, e, 1, end);
  }

  lemma SecondStroke(e: Entry, p: Phase)
    requires p == DoubleSingleTap || (p == DoubleTap && e.onDoubleTap == 0)
    ensures Stroke(e, p) == FirstTap(e) + Goes(e.onTap) + Comes(e.onTap)
  {
  }

  lemma StrikesFrom(s: State, t: State, i: nat, e: Entry, end: Command)
    requires Dancing(t, i, e, 1, false) && Sent(s, t, i, []) && e.onDoubleTap == 0 && Ends(t, i, end)
    ensures Sent(s, Run(t, [Press(i), Release(i)]), i, [])
    ensures Strikes(s, Run(t, [Press(i), Release(i), end]), i, e, FirstTap(e), e.onTap)
  {
    SecondStroke(e, Decided(2, false, end != Timeout));
    EndedLate(s, t, i, e, 1, end);
  }

  /** Tapped twice without one: the tap key twice when the dance ends, in whatever way. */
  lemma TappedTwice(s: State, i: nat, e: Entry, end: Command)
    requires Dancing(s, i, e, 0, false) && !Early(e, 1) && e.onDoubleTap == 0 && Ends(s, i, end)
    ensures Sent(s, Run(s, [Press(i), Release(i), Press(i), Release(i)]), i, [])
    ensures Strikes(s, Run(s, [Press(i), Release(i), Press(i), Release(i), end]), i, e, FirstTap(e), e.onTap)
  {
    OneMoreTap(s, i, e, 0);
    RunFour(s, Press(i), Release(i), Press(i), Release(i));
    RunFive(s, Press(i), Release(i), Press(i), Release(i), end);
    StrikesFrom(s, Run(s, [Press(i), Release(i)]), i, e, end);
  }

  // ---------- three taps and more ----------

  /** n taps of key k; 0 stands for no key. */
  function Times(k: Keycode, n: nat): seq<Act> { if k == 0 then [] else seq(n, _ => Tap(k)) }

  lemma TimesMore(k: Keycode, n: nat)
    ensures Times(k, n) + (if k != 0 then [Tap(k)] else []) == Times(k, n + 1)
    ensures Times(k, 3) == if k != 0 then [Tap(k), Tap(k), Tap(k)] else []
  {
  }

  lemma ManyTaps(s: State, i: nat, e: Entry, n: nat)
    requires Dancing(s, i, e, 0, false) && !Early(e, 1) && e.onDoubleTap == 0 && n < 256
    ensures var t := Run(s, Taps(i, n));
      Dancing(t, i, e, n, false) && Sent(s, t, i, if n < 3 then [] else Times(e.onTap, n))
  {
    if n > 0 {
      var t := Run(s, Taps(i, n - 1));
      ManyTaps(s, i, e, n - 1);
      OneMoreTap(t, i, e, n - 1);
      RunTwo(t, Press(i), Release(i));
      RunTwoMore(s, Taps(i, n - 1), Press(i), Release(i));
      SentOn(s, t, Run(s, Taps(i, n)), i, if n - 1 < 3 then [] else Times(e.onTap, n - 1), OnDance(e, n));
      TimesMore(e.onTap, n - 1);
    }
  }

  lemma EndAddsNothing(s: State, t: State, i: nat, e: Entry, c: Count, end: Command, sent: seq<Act>)
    requires Dancing(t, i, e, c, false) && c >= 3 && Ends(t, i, end) && Sent(s, t, i, sent)
    ensures Sent(s, Step(t, end), i, sent) && Step(t, end).dances[i] == Blank(e)
  {
    EndsLate(s, t, i, e, c, end, sent);
    assert Stroke(e, Decided(c, false, end != Timeout)) == [] && sent + [] == sent;
  }

  /** Tapped three times or more, until the 8-bit counter wraps: as many taps of the tap key,
      sent while the dance goes on; its end adds nothing. */
  lemma TappedMore(s: State, i: nat, e: Entry, n: nat, end: Command)
    requires Dancing(s, i, e, 0, false) && !Early(e, 1) && e.onDoubleTap == 0 && 3 <= n < 256 && Ends(s, i, end)
    ensures Sent(s, Run(s, Taps(i, n)), i, Times(e.onTap, n))
    ensures var t := Run(s, Taps(i, n) + [end]); Sent(s, t, i, Times(e.onTap, n)) && t.dances[i] == Blank(e)
  {
    ManyTaps(s, i, e, n);
    RunOneMore(s, Taps(i, n), end);
    EndAddsNothing(s, Run(s, Taps(i, n)), i, e, n, end, Times(e.onTap, n));
  }

  // ---------- a dance that is forgotten ----------

  /** The release of one dance key makes the code forget another dance that is under way
      exactly when that release decides early. */
  lemma EarlyReleaseForgets(s: State, i: nat, j: nat, e: Entry, c: Count, pressed: bool)
    requires Dancing(s, i, e, c, pressed) && c > 0 && j < |s.dances| && j != i
    ensures var t := Step(s, Release(j));
      t.dances[i] == s.dances[i] && (t.active != i <==> Early(s.dances[j].entry, s.dances[j].count))
  {
  }

  lemma SecondInterrupts(t: State, a: Entry, b: Entry)
    requires |t.dances| == 2 && Dancing(t, 0, a, 1, true) && t.dances[1] == Blank(b) && Acts(t.out, 1) == []
    ensures var r := Preprocess(t, 1);
      && |r.dances| == 2 && Dancing(r, 1, b, 0, false) && Acts(r.out, 1) == []
      && r.dances[0].entry == a && r.dances[0].count == 1 && r.dances[0].finished
  {
    ActsSay(t.out, 0, OnFinished(a, SingleTap), 1);
  }

  /** Two dances, as the second is pressed while the first is still down. */
  lemma BothDown(a: Entry, b: Entry)
    ensures var s := Run(Initial([a, b]), [Press(0), Press(1)]);
      && |s.dances| == 2 && Dancing(s, 1, b, 1, true) && Acts(s.out, 1) == []
      && s.dances[0].entry == a && s.dances[0].count == 1 && s.dances[0].finished
  {
    var s := Initial([a, b]);
    var t := Step(s, Press(0));
    RunTwo(s, Press(0), Press(1));
    Presses(s, 0, a, 0);
    SecondInterrupts(t, a, b);
    Counted(Preprocess(t, 1), 1, b, 0);
  }

  lemma FirstReleased(s: State, b: Entry)
    requires |s.dances| == 2 && Dancing(s, 1, b, 1, true) && Acts(s.out, 1) == [] && s.dances[0].finished
    ensures var t := Step(s, Release(0));
      && |t.dances| == 2 && t.dances[1] == s.dances[1] && Acts(t.out, 1) == []
      && t.active == if Early(s.dances[0].entry, s.dances[0].count) then -1 else 1
  {
    ActsSay(s.out, 0, OnReset(s.dances[0].entry, s.dances[0].phase), 1);
  }

  /** A key that rolls from one dance to the next: the tap of the second is sent when its term
      is over, unless the release of the first decides early; then the code has forgotten the
      second dance and sends nothing for it. */
  lemma RolledTap(a: Entry, b: Entry)
    requires !Early(b, 1)
    ensures var s := Run(Initial([a, b]), [Press(0), Press(1), Release(0), Release(1), Timeout]);
      Acts(s.out, 1) == if Early(a, 1) then [] else Goes(b.onTap) + Comes(b.onTap)
  {
    var s := Run(Initial([a, b]), [Press(0), Press(1)]);
    var t := Step(s, Release(0));
    var u := Step(t, Release(1));
    RunFive(Initial([a, b]), Press(0), Press(1), Release(0), Release(1), Timeout);
    RunThree(s, Release(0), Release(1), Timeout);
    RunTwo(s, Release(0), Release(1));
    BothDown(a, b);
    FirstReleased(s, b);
    if !Early(a, 1) {
      ReleasesLate(t, 1, b, 1);
      Ending(u, 1, b, 1, false, Timeout);
    }
  }
}
