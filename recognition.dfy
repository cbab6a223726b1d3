/**
  What one `onresult` event does to the popup, stated as functions on the
  values it touches.  The handler walks the whole result list of the event
  (every result it holds, not only those from `resultIndex` on); a result
  that is final has its first transcript trimmed and stored as the last
  speech result, and when that is not empty it is rewritten, appended with a
  trailing space to the resolved target and pushed to the phrase history.
 */
module Recognition {
  import opened Punctuation
  import opened JsText
  import opened History
  import opened Insertion

  /** One entry of `event.results`: its finality and the transcript of its first alternative. */
  datatype SpeechResult = SpeechResult(isFinal: bool, transcript: string)

  /** The part of the popup's state a result can change. */
  datatype Page = Page(screen: Screen, history: seq<string>, lastSpeechResult: string)

  /** A result the handler inserts: final, with a transcript that is not blank. */
  predicate Accepted(r: SpeechResult) {
    r.isFinal && Trim(r.transcript) != ""
  }

  /** The text an accepted result inserts, before its trailing space. */
  function Rewrite(r: SpeechResult): string {
    ProcessText(Trim(r.transcript))
  }

  /** What a result adds to the history: its rewrite when accepted, nothing otherwise. */
  function Added(r: SpeechResult): seq<string> {
    if Accepted(r) then [Rewrite(r)] else []
  }

  /** The effect of one result of the loop. */
  function Step(p: Page, r: SpeechResult): (q: Page)
    ensures !r.isFinal ==> q == p
    ensures r.isFinal && !Accepted(r) ==> q == p.(lastSpeechResult := "")
    ensures Accepted(r) ==>
      && q.lastSpeechResult == Trim(r.transcript)
      && q.history == Remember(p.history, Rewrite(r))
      && q.screen == Insert(p.screen, Rewrite(r) + " ")
  {
    if !r.isFinal then p
    else
      var last := Trim(r.transcript);
      if last == "" then p.(lastSpeechResult := last)
      else
        var text := ProcessText(last);
        Page(Insert(p.screen, text + " "), Remember(p.history, text), last)
  }

  /** The effect of the first `|rs|` results, in order; it keeps the history within capacity. */
  function Steps(p: Page, rs: seq<SpeechResult>): (q: Page)
    decreases |rs|
    ensures |p.history| <= Capacity ==> |q.history| <= Capacity
  {
    if rs == [] then p else Step(Steps(p, rs[..|rs| - 1]), rs[|rs| - 1])
  }

  /** The rewritten texts of the accepted results, in order. */
  function Inserted(rs: seq<SpeechResult>): seq<string>
    decreases |rs|
  {
    if rs == [] then [] else Inserted(rs[..|rs| - 1]) + Added(rs[|rs| - 1])
  }

  /** The texts joined as they are inserted: each followed by one space. */
  function Spaced(ts: seq<string>): string
    decreases |ts|
  {
    if ts == [] then "" else Spaced(ts[..|ts| - 1]) + (ts[|ts| - 1] + " ")
  }

  /**
    Over a whole event the history ends as the newest five of its old
    entries followed by the rewritten texts of the accepted results.
   */
  lemma {:induction false} StepsHistory(p: Page, rs: seq<SpeechResult>)
    requires |p.history| <= Capacity
    ensures Steps(p, rs).history == Newest(p.history + Inserted(rs), Capacity)
    ensures |Steps(p, rs).history| <= Capacity
    decreases |rs|
  {
    if rs == [] {
      assert p.history + [] == p.history;
    } else {
      var init := rs[..|rs| - 1];
      var r := rs[|rs| - 1];
      var q := Steps(p, init);
      StepsHistory(p, init);
      calc {
        Steps(p, rs).history;
        Step(q, r).history;
        { StepHistory(q, r); }
        RememberAll(q.history, Added(r));
        { RememberAllKeepsNewest(q.history, Added(r)); }
        Newest(q.history + Added(r), Capacity);
        Newest(Newest(p.history + Inserted(init), Capacity) + Added(r), Capacity);
        { NewestOfNewest(p.history + Inserted(init), Added(r), Capacity); }
        Newest(p.history + Inserted(init) + Added(r), Capacity);
        { ConcatAssociates(p.history, Inserted(init), Added(r)); }
        Newest(p.history + Inserted(rs), Capacity);
      }
    }
  }

  /** One result's effect on the history, in the terms of `History`. */
  lemma StepHistory(q: Page, r: SpeechResult)
    ensures Step(q, r).history == RememberAll(q.history, Added(r))
  {
    if Accepted(r) {
      assert Added(r)[1..] == [];
    }
  }

  /** Insertion never moves focus or changes what kind of element has it. */
  lemma {:induction false} StepsKeepFocus(p: Page, rs: seq<SpeechResult>)
    ensures Focus(Steps(p, rs).screen.active) == Focus(p.screen.active)
    ensures Receiver(Steps(p, rs).screen.active) == Receiver(p.screen.active)
    decreases |rs|
  {
    if rs != [] {
      StepsKeepFocus(p, rs[..|rs| - 1]);
    }
    ReceiverFollowsFocus(Steps(p, rs).screen.active, p.screen.active);
  }

  /**
    Over a whole event the receiving surface gains the rewritten texts of
    the accepted results, each followed by a space, in order.
   */
  lemma {:induction false} StepsInsert(p: Page, rs: seq<SpeechResult>)
    ensures var to := Receiver(p.screen.active);
      Content(Steps(p, rs).screen, to) == Content(p.screen, to) + Spaced(Inserted(rs))
    decreases |rs|, 1
  {
    if rs != [] {
      StepsInsertLast(p, rs, Receiver(p.screen.active));
    }
  }

  /** The inductive step of `StepsInsert`: one more result on top of its prefix. */
  lemma StepsInsertLast(p: Page, rs: seq<SpeechResult>, to: Surface)
    requires rs != [] && to == Receiver(p.screen.active)
    ensures Content(Steps(p, rs).screen, to) == Content(p.screen, to) + Spaced(Inserted(rs))
    decreases |rs|, 0
  {
    var init := rs[..|rs| - 1];
    var r := rs[|rs| - 1];
    var q := Steps(p, init);
    StepsKeepFocus(p, init);
    calc {
      Content(Steps(p, rs).screen, to);
      Content(Step(q, r).screen, to);
      { StepInsert(q, r); }
      Content(q.screen, to) + Spaced(Added(r));
      { StepsInsert(p, init); }
      Content(p.screen, to) + Spaced(Inserted(init)) + Spaced(Added(r));
      { ConcatAssociates(Content(p.screen, to), Spaced(Inserted(init)), Spaced(Added(r))); }
      Content(p.screen, to) + (Spaced(Inserted(init)) + Spaced(Added(r)));
      { InsertedSpaced(rs); }
      Content(p.screen, to) + Spaced(Inserted(rs));
    }
  }

  // A one-line helper: stated apart so that the proofs using it stay cheap.
  lemma ConcatAssociates<T>(a: seq<T>, b: seq<T>, c: seq<T>)
    ensures a + b + c == a + (b + c)
  {
  }

  /** One result's effect on the receiving surface. */
  lemma StepInsert(q: Page, r: SpeechResult)
    ensures var to := Receiver(q.screen.active);
      Content(Step(q, r).screen, to) == Content(q.screen, to) + Spaced(Added(r))
  {
    if Accepted(r) {
      assert Added(r)[..0] == [];
    }
  }

  /** The spaced texts of a list are those of its prefix followed by those of its last result. */
  lemma InsertedSpaced(rs: seq<SpeechResult>)
    requires rs != []
    ensures Spaced(Inserted(rs)) ==
      Spaced(Inserted(rs[..|rs| - 1])) + Spaced(Added(rs[|rs| - 1]))
  {
    SpacedConcat(Inserted(rs[..|rs| - 1]), Added(rs[|rs| - 1]));
  }

  /** Spacing distributes over concatenation. */
  lemma {:induction false} SpacedConcat(a: seq<string>, b: seq<string>)
    ensures Spaced(a + b) == Spaced(a) + Spaced(b)
    decreases |b|
  {
    if b == [] {
      assert a + b == a;
    } else {
      var b' := b[..|b| - 1];
      SpacedConcat(a, b');
      assert (a + b)[..|a + b| - 1] == a + b';
      assert (a + b)[|a + b| - 1] == b[|b| - 1];
    }
  }

  /** Over a whole event every surface other than the receiving one keeps its text. */
  lemma {:induction false} StepsLeaveOthers(p: Page, rs: seq<SpeechResult>, s: Surface)
    requires s != Receiver(p.screen.active)
    ensures Content(Steps(p, rs).screen, s) == Content(p.screen, s)
    decreases |rs|
  {
    if rs != [] {
      StepsLeaveOthers(p, rs[..|rs| - 1], s);
      StepsKeepFocus(p, rs[..|rs| - 1]);
    }
  }

  /** A list without an accepted result leaves text and history alone. */
  lemma {:induction false} NothingAccepted(p: Page, rs: seq<SpeechResult>)
    requires forall i :: 0 <= i < |rs| ==> !Accepted(rs[i])
    ensures Steps(p, rs).screen == p.screen && Steps(p, rs).history == p.history
    decreases |rs|
  {
    if rs != [] {
      NothingAccepted(p, rs[..|rs| - 1]);
    }
  }

  /** A list of interim results changes nothing at all. */
  lemma {:induction false} NothingFinal(p: Page, rs: seq<SpeechResult>)
    requires forall i :: 0 <= i < |rs| ==> !rs[i].isFinal
    ensures Steps(p, rs) == p
    decreases |rs|
  {
    if rs != [] {
      NothingFinal(p, rs[..|rs| - 1]);
    }
  }

  /** The last speech result is the trimmed transcript of the last final result. */
  lemma {:induction false} StepsLastSpeech(p: Page, rs: seq<SpeechResult>, i: nat)
    requires i < |rs| && rs[i].isFinal
    requires forall j :: i < j < |rs| ==> !rs[j].isFinal
    ensures Steps(p, rs).lastSpeechResult == Trim(rs[i].transcript)
    decreases |rs|
  {
    if i < |rs| - 1 {
      StepsLastSpeech(p, rs[..|rs| - 1], i);
    }
  }

  /** Handling two lists one after the other is handling their concatenation. */
  lemma {:induction false} StepsConcat(p: Page, a: seq<SpeechResult>, b: seq<SpeechResult>)
    ensures Steps(Steps(p, a), b) == Steps(p, a + b)
    decreases |b|
  {
    if b == [] {
      assert a + b == a;
    } else {
      var b' := b[..|b| - 1];
      assert (a + b)[..|a + b| - 1] == a + b';
      assert (a + b)[|a + b| - 1] == b[|b| - 1];
      StepsConcat(p, a, b');
    }
  }

  /*
    In a continuous session the engine's result list holds every result of
    the session so far, and `resultIndex` is the first one the event adds.
    The handler as written walks the whole list, so a second event hands it
    the first phrase again.
   */

  /** As written: the phrase of the first event is inserted a second time by the next event. */
  lemma ResultReinsertedByNextEvent(p: Page, a: SpeechResult, b: SpeechResult)
    requires Accepted(a) && Accepted(b)
    ensures var to := Receiver(p.screen.active);
      var ta := Rewrite(a);
      var tb := Rewrite(b);
      Content(Steps(Steps(p, [a]), [a, b]).screen, to) ==
        Content(p.screen, to) + (ta + " ") + (ta + " ") + (tb + " ")
  {
    var to := Receiver(p.screen.active);
    var all := [a] + [a, b];
    var ta := Rewrite(a);
    var tb := Rewrite(b);
    calc {
      Content(Steps(Steps(p, [a]), [a, b]).screen, to);
      { StepsConcat(p, [a], [a, b]); }
      Content(Steps(p, all).screen, to);
      { StepsInsert(p, all); }
      Content(p.screen, to) + Spaced(Inserted(all));
      { InsertedTwice(a, b); }
      Content(p.screen, to) + Spaced([ta, ta, tb]);
      { SpacedThree(ta, ta, tb); }
      Content(p.screen, to) + ((ta + " ") + (ta + " ") + (tb + " "));
      { ConcatAssociates(Content(p.screen, to), (ta + " ") + (ta + " "), tb + " ");
        ConcatAssociates(Content(p.screen, to), ta + " ", ta + " "); }
      Content(p.screen, to) + (ta + " ") + (ta + " ") + (tb + " ");
    }
  }

  lemma InsertedTwice(a: SpeechResult, b: SpeechResult)
    requires Accepted(a) && Accepted(b)
    ensures Inserted([a] + [a, b]) ==
      [Rewrite(a), Rewrite(a), Rewrite(b)]
  {
    calc {
      Inserted([a] + [a, b]);
      { assert [a] + [a, b] == [a, a] + [b]; }
      Inserted([a, a] + [b]);
      { InsertedSnoc([a, a], b); assert [a, a] == [a] + [a]; }
      Inserted([a] + [a]) + Added(b);
      { InsertedSnoc([a], a); assert [a] == [] + [a]; }
      Inserted([] + [a]) + Added(a) + Added(b);
      { InsertedSnoc([], a); }
      [] + Added(a) + Added(a) + Added(b);
      { AddedAccepted(a); AddedAccepted(b); }
      [] + [Rewrite(a)] + [Rewrite(a)] + [Rewrite(b)];
      { ThreeSingletons(Rewrite(a), Rewrite(a), Rewrite(b)); }
      [Rewrite(a), Rewrite(a), Rewrite(b)];
    }
  }

  // A one-line helper: stated apart so that the proofs using it stay cheap.
  lemma AddedAccepted(r: SpeechResult)
    requires Accepted(r)
    ensures Added(r) == [Rewrite(r)]
  {
  }

  // A one-line helper: stated apart so that the proofs using it stay cheap.
  lemma ThreeSingletons<T>(x: T, y: T, z: T)
    ensures [] + [x] + [y] + [z] == [x, y, z]
  {
  }

  /** Appending one result appends what it adds. */
  lemma InsertedSnoc(rs: seq<SpeechResult>, r: SpeechResult)
    ensures Inserted(rs + [r]) == Inserted(rs) + Added(r)
  {
    assert (rs + [r])[..|rs|] == rs;
  }

  lemma SpacedThree(x: string, y: string, z: string)
    ensures Spaced([x, y, z]) == (x + " ") + (y + " ") + (z + " ")
  {
    assert [x, y, z][..2] == [x, y] && [x, y][..1] == [x] && [x][..0] == [];
    assert Spaced([x]) == x + " ";
    assert Spaced([x, y]) == (x + " ") + (y + " ");
  }

  /** The handler as intended: only the results from `resultIndex` on. */
  function StepsFrom(p: Page, rs: seq<SpeechResult>, resultIndex: nat): (q: Page)
    requires resultIndex <= |rs|
    ensures resultIndex == 0 ==> q == Steps(p, rs)
    ensures resultIndex == |rs| ==> q == p
  {
    assert resultIndex == 0 ==> rs[resultIndex..] == rs;
    Steps(p, rs[resultIndex..])
  }

  /**
    With the intended handler, the events of a session whose list grows from
    `first` to `later` handle every result exactly once, as if the whole
    list had come in one event.
   */
  lemma EventsHandleEachResultOnce(p: Page, first: seq<SpeechResult>, later: seq<SpeechResult>)
    requires first <= later
    ensures StepsFrom(StepsFrom(p, first, 0), later, |first|) == Steps(p, later)
  {
    assert first[0..] == first;
    StepsConcat(p, first, later[|first|..]);
    assert first + later[|first|..] == later;
  }
}
