/**
 * Typing a generated reply into the chat box (main.py:253-259): the text is
 * split on line breaks, each line is typed, SHIFT+ENTER goes between
 * consecutive lines (a line break inside the message) and a final ENTER
 * submits it.
 */
module Keys {
  import opened Strings

  /** One `send_keys` call on the chat box. */
  datatype KeyEvent = Type(line: string) | ShiftEnter | Enter

  const LineBreak: string := "\n"

  /** The text one key event adds to the chat box. */
  function Shows(e: KeyEvent): string
  {
    match e
    case Type(line) => line
    case ShiftEnter => LineBreak
    case Enter => ""
  }

  /**
   * The message text a sequence of key events leaves in the chat box: the
   * `Shows` of each event in turn (TypedSnoc). The match is `Shows(last)`
   * written out, so that the proofs of TypeLines and ReplayChorded see each
   * event's text without unfolding a second function.
   */
  function Typed(events: seq<KeyEvent>): string
  {
    if |events| == 0 then ""
    else
      var last := events[|events| - 1];
      Typed(events[..|events| - 1]) +
        match last
        case Type(line) => line
        case ShiftEnter => LineBreak
        case Enter => ""
  }

  /** One more event adds its own text at the end. */
  lemma TypedSnoc(events: seq<KeyEvent>, e: KeyEvent)
    ensures Typed(events + [e]) == Typed(events) + Shows(e)
  {
    assert (events + [e])[..|events|] == events;
  }

  /**
   * `events` types `lines` in order with a SHIFT+ENTER between each two:
   * line k at position 2k, a chord at 2k + 1 for every k but the last.
   */
  ghost predicate Chorded(lines: seq<string>, events: seq<KeyEvent>)
  {
    && |lines| >= 1
    && |events| >= 2 * |lines| - 1
    && (forall k :: 0 <= k < |lines| ==> events[2 * k] == Type(lines[k]))
    && (forall k :: 0 <= k < |lines| - 1 ==> events[2 * k + 1] == ShiftEnter)
  }

  /** Replaying the first m lines and the chords between them types them joined by line breaks. */
  lemma {:induction false} ReplayChorded(lines: seq<string>, events: seq<KeyEvent>, m: nat)
    requires Chorded(lines, events)
    requires 1 <= m <= |lines|
    ensures Typed(events[..2 * m - 1]) == JoinWith(lines[..m], LineBreak)
  {
    if m == 1 {
      assert events[..1] == [] + [Type(lines[0])];
      TypedSnoc([], Type(lines[0]));
      assert lines[..1] == [lines[0]];
    } else {
      var front := events[..2 * m - 3];
      var chord := events[..2 * m - 2];
      assert events[2 * (m - 2) + 1] == ShiftEnter;
      assert chord == front + [ShiftEnter];
      assert events[..2 * m - 1] == chord + [Type(lines[m - 1])];
      assert lines[..m] == lines[..m - 1] + [lines[m - 1]];
      calc {
        Typed(events[..2 * m - 1]);
      == { TypedSnoc(chord, Type(lines[m - 1])); }
        Typed(chord) + lines[m - 1];
      == { TypedSnoc(front, ShiftEnter); }
        Typed(front) + LineBreak + lines[m - 1];
      == { ReplayChorded(lines, events, m - 1); }
        JoinWith(lines[..m - 1], LineBreak) + LineBreak + lines[m - 1];
      == { JoinWithSnoc(lines[..m - 1], lines[m - 1], LineBreak); }
        JoinWith(lines[..m], LineBreak);
      }
    }
  }

  /**
   * The events after the first i lines: each line at an even position, a
   * chord after every line but the last one, and no ENTER yet.
   */
  ghost predicate Laid(lines: seq<string>, events: seq<KeyEvent>, i: nat)
  {
    && 1 <= |lines| && i <= |lines|
    && |events| == (if i == |lines| then 2 * i - 1 else 2 * i)
    && (forall k :: 0 <= k < i ==> events[2 * k] == Type(lines[k]))
    && (forall k :: 0 <= k < i && k < |lines| - 1 ==> events[2 * k + 1] == ShiftEnter)
    && multiset(events)[ShiftEnter] == (if i == |lines| then i - 1 else i)
    && multiset(events)[Enter] == 0
    && (forall k :: 0 <= k < |events| && events[k].Type? ==> events[k].line in lines)
  }

  /** Typing line i, followed by a chord unless it is the last line, lays one more line. */
  lemma LaidStep(lines: seq<string>, events: seq<KeyEvent>, i: nat)
    requires Laid(lines, events, i) && i < |lines|
    ensures i < |lines| - 1 ==> Laid(lines, events + [Type(lines[i]), ShiftEnter], i + 1)
    ensures i == |lines| - 1 ==> Laid(lines, events + [Type(lines[i])], i + 1)
  {
    var more := if i < |lines| - 1 then events + [Type(lines[i]), ShiftEnter] else events + [Type(lines[i])];
    assert forall k :: 0 <= k < |events| ==> more[k] == events[k];
    assert more[2 * i] == Type(lines[i]);
  }

  /**
   * The loop of `send_message_text` over the lines: line k at position 2k,
   * a SHIFT+ENTER after every line but the last, one ENTER at the end.
   */
  method TypeLines(lines: seq<string>) returns (events: seq<KeyEvent>)
    requires |lines| >= 1
    ensures |events| == 2 * |lines|
    ensures forall k :: 0 <= k < |lines| ==> events[2 * k] == Type(lines[k])
    ensures forall k :: 0 <= k < |lines| - 1 ==> events[2 * k + 1] == ShiftEnter
    ensures events[|events| - 1] == Enter
    ensures multiset(events)[ShiftEnter] == |lines| - 1
    ensures multiset(events)[Enter] == 1
    ensures forall k :: 0 <= k < |events| && events[k].Type? ==> events[k].line in lines
    ensures Typed(events) == JoinWith(lines, LineBreak)
  {
    events := [];
    var i := 0;
    while i < |lines|
      invariant Laid(lines, events, i)
    {
      LaidStep(lines, events, i);
      if i < |lines| - 1 {
        events := events + [Type(lines[i]), ShiftEnter];
      } else {
        events := events + [Type(lines[i])];
      }
      i := i + 1;
    }
    Submit(lines, events);
    events := events + [Enter];
  }

  /** Once every line is laid, the final ENTER submits exactly the lines joined by line breaks. */
  lemma Submit(lines: seq<string>, events: seq<KeyEvent>)
    requires Laid(lines, events, |lines|)
    ensures var sent := events + [Enter];
      && |sent| == 2 * |lines|
      && (forall k :: 0 <= k < |lines| ==> sent[2 * k] == Type(lines[k]))
      && (forall k :: 0 <= k < |lines| - 1 ==> sent[2 * k + 1] == ShiftEnter)
      && multiset(sent)[ShiftEnter] == |lines| - 1
      && multiset(sent)[Enter] == 1
      && (forall k :: 0 <= k < |sent| && sent[k].Type? ==> sent[k].line in lines)
    ensures Typed(events + [Enter]) == JoinWith(lines, LineBreak)
  {
    assert forall k :: 0 <= k < |events| ==> (events + [Enter])[k] == events[k];
    ReplayChorded(lines, events, |lines|);
    assert events[..2 * |lines| - 1] == events;
    assert lines[..|lines|] == lines;
    TypedSnoc(events, Enter);
  }

  /**
   * `send_message_text`: the key events for `text` are those for its lines
   * (`text.split("\n")`); replaying them gives `text` back, they hold
   * exactly one chord fewer than lines and one ENTER, and no typed line
   * holds a line break of its own.
   */
  method SendMessageText(text: string) returns (events: seq<KeyEvent>)
    ensures var lines := Split(text, LineBreak);
      && |events| == 2 * |lines|
      && (forall k :: 0 <= k < |lines| ==> events[2 * k] == Type(lines[k]))
      && (forall k :: 0 <= k < |lines| - 1 ==> events[2 * k + 1] == ShiftEnter)
      && events[|events| - 1] == Enter
      && multiset(events)[ShiftEnter] == |lines| - 1
    ensures multiset(events)[Enter] == 1
    ensures Typed(events) == text
    ensures forall k :: 0 <= k < |events| && events[k].Type? ==> !Contains(events[k].line, LineBreak)
  {
    var lines := Split(text, LineBreak);
    events := TypeLines(lines);
    SplitPiecesFree(text, LineBreak);
  }
}
