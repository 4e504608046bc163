/** Events and the inner event loop of `main`: `check_resize`, `check_keys`
    and the assignment `done = check_keys(&e)` for each pending event. */
module Events {
  import opened Framebuffer

  /** `XK_Escape`, the keysym of the Escape key. */
  const EscapeKeysym := 0xFF1B

  /** What the handlers look at in an `XEvent`: a `ConfigureNotify` with its new
      size, a key press or release with the keysym at index 0 of the key, or
      anything else (pointer events, exposure, ...). */
  datatype Event =
    | Configure(width: nat, height: nat)
    | KeyPress(keysym: int)
    | KeyRelease(keysym: int)
    | Other

  predicate IsEscape(e: Event)
  {
    e.KeyPress? && e.keysym == EscapeKeysym
  }

  /** `check_keys`: 1 for a press of Escape, 0 for every other event. */
  function CheckKeys(e: Event): (r: int)
    ensures r == 0 || r == 1
    ensures r == 1 <==> IsEscape(e)
  {
    if e.KeyPress? && e.keysym == EscapeKeysym then 1 else 0
  }

  /** The test of `check_resize`: a `ConfigureNotify` whose size differs from
      the current resolution in width or in height. */
  predicate Resizes(xres: nat, yres: nat, e: Event)
  {
    e.Configure? && (e.width != xres || e.height != yres)
  }

  /** `check_resize`: a resize event of a new size runs `setup_screen_res` with
      that size (through `reshape_window`); every other event changes nothing. */
  method CheckResize(s: Screen, e: Event)
    requires s.Valid()
    modifies s
    ensures s.Valid()
    ensures Resizes(old(s.xres), old(s.yres), e) ==>
              s.xres == e.width && s.yres == e.height && fresh(s.screendata)
              && s.screendata.Length == e.height * e.width * 4
    ensures !Resizes(old(s.xres), old(s.yres), e) ==>
              s.xres == old(s.xres) && s.yres == old(s.yres) && s.xres3 == old(s.xres3)
              && s.xres4 == old(s.xres4) && s.screendata == old(s.screendata)
  {
    if e.Configure? {
      if e.width != s.xres || e.height != s.yres {
        s.SetupScreenRes(e.width, e.height);
      }
    }
  }

  /** What the event loop keeps between events: the resolution, `done`, and
      whether the buffer has been reallocated so far. */
  datatype DrainState = DrainState(xres: nat, yres: nat, done: int, reallocated: bool)

  /** One turn of the loop on event `e`. */
  function Step(st: DrainState, e: Event): DrainState
  {
    var grow := Resizes(st.xres, st.yres, e);
    DrainState(if grow then e.width else st.xres,
               if grow then e.height else st.yres,
               CheckKeys(e),
               st.reallocated || grow)
  }

  /** The loop over the pending events `q`, first to last. */
  function Drain(st: DrainState, q: seq<Event>): DrainState
    decreases |q|
  {
    if q == [] then st else Drain(Step(st, q[0]), q[1..])
  }

  /** Draining one more event is one more step after the rest. */
  lemma {:induction false} DrainSnoc(st: DrainState, q: seq<Event>, e: Event)
    ensures Drain(st, q + [e]) == Step(Drain(st, q), e)
    decreases |q|
  {
    if q == [] {
      assert q + [e] == [e];
      assert [e][1..] == [];
    } else {
      assert (q + [e])[1..] == q[1..] + [e];
      DrainSnoc(Step(st, q[0]), q[1..], e);
    }
  }

  /** Draining `p` and then `q` is draining `p + q`. */
  lemma {:induction false} DrainAppend(st: DrainState, p: seq<Event>, q: seq<Event>)
    ensures Drain(st, p + q) == Drain(Drain(st, p), q)
    decreases |p|
  {
    if p == [] {
      assert p + q == q;
    } else {
      assert (p + q)[1..] == p[1..] + q;
      DrainAppend(Step(st, p[0]), p[1..], q);
    }
  }

  /** `done` after a batch is `check_keys` of the batch's last event; an empty
      batch leaves it as it was. */
  lemma DrainDone(st: DrainState, q: seq<Event>)
    ensures Drain(st, q).done == if q == [] then st.done else CheckKeys(q[|q| - 1])
  {
    if q != [] {
      var init := q[..|q| - 1];
      assert q == init + [q[|q| - 1]];
      DrainSnoc(st, init, q[|q| - 1]);
    }
  }

  /** The loop ends the program after a batch exactly when the batch's last
      event is Escape (or the batch is empty and `done` was already 1). */
  lemma DrainQuits(st: DrainState, q: seq<Event>)
    ensures Drain(st, q).done == 1 <==>
              if q == [] then st.done == 1 else IsEscape(q[|q| - 1])
  {
    DrainDone(st, q);
  }

  /** An Escape press followed by any other event in the same batch is lost. */
  lemma EscapeOverwritten(st: DrainState, p: seq<Event>, q: seq<Event>, e: Event)
    requires !IsEscape(e)
    ensures Drain(st, p + [KeyPress(EscapeKeysym)] + q + [e]).done == 0
  {
    DrainDone(st, p + [KeyPress(EscapeKeysym)] + q + [e]);
  }

  /** A quick tap of Escape, whose press and release arrive in the same batch,
      does not end the program: the release sets `done` back to 0. */
  lemma EscapeTapLost(st: DrainState)
    ensures Drain(st, [KeyPress(EscapeKeysym), KeyRelease(EscapeKeysym)]).done == 0
  {
    EscapeOverwritten(st, [], [], KeyRelease(EscapeKeysym));
    assert [] + [KeyPress(EscapeKeysym)] + [] + [KeyRelease(EscapeKeysym)]
        == [KeyPress(EscapeKeysym), KeyRelease(EscapeKeysym)];
  }

  /** The corrected loop turn: an Escape press sets `done`, and no later event
      clears it (`if (check_keys(&e)) done = 1;`). */
  function StepSticky(st: DrainState, e: Event): DrainState
  {
    var grow := Resizes(st.xres, st.yres, e);
    DrainState(if grow then e.width else st.xres,
               if grow then e.height else st.yres,
               if CheckKeys(e) == 1 then 1 else st.done,
               st.reallocated || grow)
  }

  /** The corrected loop over the pending events `q`, first to last. */
  function DrainSticky(st: DrainState, q: seq<Event>): DrainState
    decreases |q|
  {
    if q == [] then st else DrainSticky(StepSticky(st, q[0]), q[1..])
  }

  /** Draining one more event with the corrected loop is one more step. */
  lemma {:induction false} DrainStickySnoc(st: DrainState, q: seq<Event>, e: Event)
    ensures DrainSticky(st, q + [e]) == StepSticky(DrainSticky(st, q), e)
    decreases |q|
  {
    if q == [] {
      assert q + [e] == [e];
      assert [e][1..] == [];
    } else {
      assert (q + [e])[1..] == q[1..] + [e];
      DrainStickySnoc(StepSticky(st, q[0]), q[1..], e);
    }
  }

  /** With the corrected loop, the program ends after a batch exactly when
      `done` was already 1 or some event of the batch is an Escape press. */
  lemma {:induction false} DrainStickyQuits(st: DrainState, q: seq<Event>)
    ensures DrainSticky(st, q).done == 1 <==>
              st.done == 1 || exists i :: 0 <= i < |q| && IsEscape(q[i])
    decreases |q|
  {
    if q != [] {
      var st1 := StepSticky(st, q[0]);
      DrainStickyQuits(st1, q[1..]);
      assert st1.done == 1 <==> st.done == 1 || IsEscape(q[0]);
      if exists i :: 0 <= i < |q| && IsEscape(q[i]) {
        var i :| 0 <= i < |q| && IsEscape(q[i]);
        if i > 0 {
          assert IsEscape(q[1..][i - 1]);
        }
      }
      if exists j :: 0 <= j < |q[1..]| && IsEscape(q[1..][j]) {
        var j :| 0 <= j < |q[1..]| && IsEscape(q[1..][j]);
        assert IsEscape(q[j + 1]);
      }
    }
  }

  /** The corrected loop keeps the resolution and reallocation of the loop as
      written; only `done` differs. */
  lemma {:induction false} DrainStickyAgrees(st: DrainState, q: seq<Event>)
    ensures DrainSticky(st, q).xres == Drain(st, q).xres
    ensures DrainSticky(st, q).yres == Drain(st, q).yres
    ensures DrainSticky(st, q).reallocated == Drain(st, q).reallocated
    decreases |q|
  {
    if q != [] {
      var a, b := Step(st, q[0]), StepSticky(st, q[0]);
      DrainStickyAgrees(b, q[1..]);
      DrainIgnoresDone(a, b, q[1..]);
    }
  }

  /** Neither loop's resolution or reallocation depends on `done`. */
  lemma {:induction false} DrainIgnoresDone(a: DrainState, b: DrainState, q: seq<Event>)
    requires a.xres == b.xres && a.yres == b.yres && a.reallocated == b.reallocated
    ensures Drain(a, q).xres == Drain(b, q).xres && Drain(a, q).yres == Drain(b, q).yres
    ensures Drain(a, q).reallocated == Drain(b, q).reallocated
    decreases |q|
  {
    if q != [] {
      DrainIgnoresDone(Step(a, q[0]), Step(b, q[0]), q[1..]);
    }
  }

  /** The size of the last `ConfigureNotify` of `q`, if there is one. */
  datatype Size = NoSize | Size(width: nat, height: nat)

  function LastConfigure(q: seq<Event>): Size
    decreases |q|
  {
    if q == [] then NoSize
    else if q[|q| - 1].Configure? then Size(q[|q| - 1].width, q[|q| - 1].height)
    else LastConfigure(q[..|q| - 1])
  }

  /** After a batch, the resolution is that of the batch's last `ConfigureNotify`,
      or the old one when the batch has none. */
  lemma {:induction false} DrainResolution(st: DrainState, q: seq<Event>)
    ensures var r := Drain(st, q);
            match LastConfigure(q)
            case NoSize => r.xres == st.xres && r.yres == st.yres
            case Size(w, h) => r.xres == w && r.yres == h
    decreases |q|
  {
    if q != [] {
      var init := q[..|q| - 1];
      assert q == init + [q[|q| - 1]];
      DrainSnoc(st, init, q[|q| - 1]);
      DrainResolution(st, init);
    }
  }

  /** A batch whose `ConfigureNotify` events all repeat the current size
      reallocates nothing and keeps the resolution. */
  lemma {:induction false} NoResizeNoRealloc(st: DrainState, q: seq<Event>)
    requires forall i :: 0 <= i < |q| && q[i].Configure? ==> q[i].width == st.xres && q[i].height == st.yres
    ensures Drain(st, q).reallocated == st.reallocated
    ensures Drain(st, q).xres == st.xres && Drain(st, q).yres == st.yres
    decreases |q|
  {
    if q != [] {
      var init := q[..|q| - 1];
      assert q == init + [q[|q| - 1]];
      DrainSnoc(st, init, q[|q| - 1]);
      NoResizeNoRealloc(st, init);
    }
  }

  /** A batch that ends at a different resolution has reallocated the buffer. */
  lemma {:induction false} NewSizeReallocates(st: DrainState, q: seq<Event>)
    ensures Drain(st, q).xres != st.xres || Drain(st, q).yres != st.yres ==> Drain(st, q).reallocated
    ensures st.reallocated ==> Drain(st, q).reallocated
    decreases |q|
  {
    if q != [] {
      var init := q[..|q| - 1];
      assert q == init + [q[|q| - 1]];
      DrainSnoc(st, init, q[|q| - 1]);
      NewSizeReallocates(st, init);
    }
  }

  /** The inner loop of `main`: `while (XPending(dpy))` over the pending events
      `queue`, calling `check_resize` and then `done = check_keys(&e)` for each. */
  method DrainEvents(s: Screen, queue: seq<Event>, done: int) returns (done': int)
    requires s.Valid()
    modifies s
    ensures s.Valid()
    ensures var r := Drain(DrainState(old(s.xres), old(s.yres), done, false), queue);
            done' == r.done && s.xres == r.xres && s.yres == r.yres
            && (if r.reallocated then fresh(s.screendata) else s.screendata == old(s.screendata))
  {
    ghost var st0 := DrainState(s.xres, s.yres, done, false);
    done' := done;
    var k := 0;
    while k < |queue|
      invariant 0 <= k <= |queue|
      invariant s.Valid()
      invariant var r := Drain(st0, queue[..k]);
                done' == r.done && s.xres == r.xres && s.yres == r.yres
                && (if r.reallocated then fresh(s.screendata) else s.screendata == old(s.screendata))
    {
      var e := queue[k];
      DrainSnoc(st0, queue[..k], e);
      assert queue[..k + 1] == queue[..k] + [e];
      CheckResize(s, e);
      done' := CheckKeys(e);
      k := k + 1;
    }
    assert queue[..k] == queue;
  }

  /** The corrected inner loop: as `DrainEvents`, but an Escape press sets
      `done` to 1 and no later event of the batch clears it. */
  method DrainEventsSticky(s: Screen, queue: seq<Event>, done: int) returns (done': int)
    requires s.Valid()
    modifies s
    ensures s.Valid()
    ensures var r := DrainSticky(DrainState(old(s.xres), old(s.yres), done, false), queue);
            done' == r.done && s.xres == r.xres && s.yres == r.yres
            && (if r.reallocated then fresh(s.screendata) else s.screendata == old(s.screendata))
  {
    ghost var st0 := DrainState(s.xres, s.yres, done, false);
    done' := done;
    var k := 0;
    while k < |queue|
      invariant 0 <= k <= |queue|
      invariant s.Valid()
      invariant var r := DrainSticky(st0, queue[..k]);
                done' == r.done && s.xres == r.xres && s.yres == r.yres
                && (if r.reallocated then fresh(s.screendata) else s.screendata == old(s.screendata))
    {
      var e := queue[k];
      DrainStickySnoc(st0, queue[..k], e);
      assert queue[..k + 1] == queue[..k] + [e];
      CheckResize(s, e);
      if CheckKeys(e) == 1 {
        done' := 1;
      }
      k := k + 1;
    }
    assert queue[..k] == queue;
  }
}
