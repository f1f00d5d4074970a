/** Single-playback control in video-sync.js: which embedded players get
    pause messages, and in what order. Delivery through `postMessage` and its
    cross-origin failures are not modelled; a message is the index of the
    receiving player and the payload posted to it. */
module VideoSync {
  import opened Optional

  /** `JSON.stringify({event: 'command', func: 'pauseVideo', args: ''})`. */
  const PauseCommand: string := "{\"event\":\"command\",\"func\":\"pauseVideo\",\"args\":\"\"}"
  /** The bare `'pause'` command the player also understands. */
  const PauseWord: string := "pause"

  datatype Message = Message(target: nat, data: string)

  /** The set of players a batch of messages reaches. */
  function Targets(msgs: seq<Message>): set<nat>
  {
    set j | 0 <= j < |msgs| :: msgs[j].target
  }

  /** Messages come in pairs to one player each, `first` then `second`. */
  predicate Pairs(msgs: seq<Message>, first: string, second: string)
  {
    && |msgs| % 2 == 0
    && (forall j :: 0 <= j < |msgs| ==> msgs[j].data == (if j % 2 == 0 then first else second))
    && (forall j :: 0 < j < |msgs| && j % 2 == 1 ==> msgs[j].target == msgs[j - 1].target)
  }

  /** Sending one more pair to player `w`. */
  lemma AppendPair(msgs: seq<Message>, w: nat, first: string, second: string)
    requires Pairs(msgs, first, second)
    ensures Pairs(msgs + [Message(w, first), Message(w, second)], first, second)
    ensures Targets(msgs + [Message(w, first), Message(w, second)]) == Targets(msgs) + {w}
  {
    var m := msgs + [Message(w, first), Message(w, second)];
    assert m[|msgs|].target == w;
    forall t | t in Targets(msgs) ensures t in Targets(m) {
      var j :| 0 <= j < |msgs| && msgs[j].target == t;
      assert m[j] == msgs[j];
    }
  }

  /** In a paired batch every player reached gets both payloads, the first
      immediately before the second. */
  lemma PairsDeliverBoth(msgs: seq<Message>, first: string, second: string, w: nat)
    requires Pairs(msgs, first, second)
    requires w in Targets(msgs)
    ensures exists j :: 0 <= j < |msgs| - 1 && msgs[j] == Message(w, first) && msgs[j + 1] == Message(w, second)
  {
    var k :| 0 <= k < |msgs| && msgs[k].target == w;
    var j := if k % 2 == 0 then k else k - 1;
    assert msgs[j + 1].target == msgs[j].target;
    assert msgs[j] == Message(w, first);
  }

  /** `pauseOtherVideos(activeIndex, iframes)` over `n` iframes: every other
      player, in index order, gets the JSON command and then `'pause'`. */
  method PauseOtherVideos(active: int, n: nat) returns (msgs: seq<Message>)
    ensures forall i: nat :: i in Targets(msgs) <==> i < n && i != active
    ensures forall j :: 0 <= j < |msgs| ==> msgs[j].target != active
    ensures |msgs| == 2 * (if 0 <= active < n then n - 1 else n)
    ensures Pairs(msgs, PauseCommand, PauseWord)
    ensures forall j, k :: 0 <= j < k < |msgs| && j % 2 == 0 && k % 2 == 0 ==>
              msgs[j].target < msgs[k].target
  {
    msgs := [];
    var index := 0;
    while index < n
      invariant index <= n
      invariant |msgs| == 2 * (if 0 <= active < index then index - 1 else index)
      invariant forall i: nat :: i in Targets(msgs) <==> i < index && i != active
      invariant forall j :: 0 <= j < |msgs| ==> msgs[j].target < index && msgs[j].target != active
      invariant Pairs(msgs, PauseCommand, PauseWord)
      invariant forall j, k :: 0 <= j < k < |msgs| && j % 2 == 0 && k % 2 == 0 ==>
                  msgs[j].target < msgs[k].target
    {
      if index != active {
        AppendPair(msgs, index, PauseCommand, PauseWord);
        msgs := msgs + [Message(index, PauseCommand), Message(index, PauseWord)];
      }
      index := index + 1;
    }
  }

  /** An IntersectionObserver entry: whether the container is in view, and the
      window of the element `querySelector('iframe') || target` found, when it
      has one (`None` stands for a missing `contentWindow`). */
  datatype Entry = Entry(isIntersecting: bool, frame: Option<nat>)

  /** The entries the callback acts on. */
  predicate Leaving(e: Entry)
  {
    !e.isIntersecting && e.frame.Some?
  }

  /** The players behind the entries that leave the view. */
  function LeavingFrames(entries: seq<Entry>): set<nat>
  {
    set k | 0 <= k < |entries| && Leaving(entries[k]) :: entries[k].frame.value
  }

  lemma LeavingFramesSnoc(entries: seq<Entry>, e: Entry)
    ensures LeavingFrames(entries + [e])
         == LeavingFrames(entries) + (if Leaving(e) then {e.frame.value} else {})
  {
    var es := entries + [e];
    forall t | t in LeavingFrames(entries) ensures t in LeavingFrames(es) {
      var k :| 0 <= k < |entries| && Leaving(entries[k]) && entries[k].frame.value == t;
      assert es[k] == entries[k];
    }
    if Leaving(e) {
      assert es[|entries|] == e;
    }
  }

  /** The players behind the leaving entries, one per entry, in entry
      order. */
  function LeavingOrder(entries: seq<Entry>): (ws: seq<nat>)
    ensures |ws| <= |entries|
    decreases |entries|
  {
    if |entries| == 0 then []
    else
      var e := entries[|entries| - 1];
      LeavingOrder(entries[..|entries| - 1]) + (if Leaving(e) then [e.frame.value] else [])
  }

  /** The ordered list and the set of players to pause agree. */
  lemma {:induction false} LeavingOrderCoversFrames(entries: seq<Entry>)
    ensures forall w: nat :: w in LeavingOrder(entries) <==> w in LeavingFrames(entries)
    decreases |entries|
  {
    if |entries| > 0 {
      var prev := entries[..|entries| - 1];
      var e := entries[|entries| - 1];
      assert entries == prev + [e];
      LeavingOrderCoversFrames(prev);
      LeavingFramesSnoc(prev, e);
    }
  }

  /** `msgs` posts, for each player of `ws` in turn, `first` and then
      `second`, and nothing else. */
  predicate PairedInOrder(msgs: seq<Message>, ws: seq<nat>, first: string, second: string)
  {
    && |msgs| == 2 * |ws|
    && (forall k :: 0 <= k < |ws| ==> msgs[2 * k] == Message(ws[k], first))
    && (forall k :: 0 <= k < |ws| ==> msgs[2 * k + 1] == Message(ws[k], second))
  }

  lemma AppendInOrder(msgs: seq<Message>, ws: seq<nat>, w: nat, first: string, second: string)
    requires PairedInOrder(msgs, ws, first, second)
    ensures PairedInOrder(msgs + [Message(w, first), Message(w, second)], ws + [w], first, second)
  {
    var m := msgs + [Message(w, first), Message(w, second)];
    var v := ws + [w];
    forall k | 0 <= k < |v|
      ensures m[2 * k] == Message(v[k], first) && m[2 * k + 1] == Message(v[k], second)
    {
      if k < |ws| {
        assert m[2 * k] == msgs[2 * k] && m[2 * k + 1] == msgs[2 * k + 1];
      }
    }
  }

  /** The observer callback: each entry leaving the view, in order, gets
      `'pause'` and then the JSON command; entries still in view, and elements
      without a window, get nothing. */
  method OnIntersection(entries: seq<Entry>) returns (msgs: seq<Message>)
    ensures PairedInOrder(msgs, LeavingOrder(entries), PauseWord, PauseCommand)
    ensures Targets(msgs) == LeavingFrames(entries)
    ensures Pairs(msgs, PauseWord, PauseCommand)
  {
    msgs := [];
    var index := 0;
    while index < |entries|
      invariant index <= |entries|
      invariant PairedInOrder(msgs, LeavingOrder(entries[..index]), PauseWord, PauseCommand)
      invariant Targets(msgs) == LeavingFrames(entries[..index])
      invariant Pairs(msgs, PauseWord, PauseCommand)
    {
      var entry := entries[index];
      LeavingFramesSnoc(entries[..index], entry);
      assert entries[..index + 1] == entries[..index] + [entry];
      assert entries[..index + 1][..index] == entries[..index];
      if Leaving(entry) {
        AppendPair(msgs, entry.frame.value, PauseWord, PauseCommand);
        AppendInOrder(msgs, LeavingOrder(entries[..index]), entry.frame.value, PauseWord, PauseCommand);
        msgs := msgs + [Message(entry.frame.value, PauseWord), Message(entry.frame.value, PauseCommand)];
      }
      index := index + 1;
    }
    assert entries[..index] == entries;
  }
}
