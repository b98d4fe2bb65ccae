/**
 * The communications page: the conversation list patched by `new-message`, the outgoing
 * message guard, the broadcast feed with its display defaults and type slug, the
 * conversation tag, and the broadcast form's validation.
 */
module Communications {
  import opened Wrappers
  import opened Text
  import opened Js
  import opened Views
  import opened Store

  // ---------------------------------------------------------------------------------
  // Conversations.

  datatype Message = Message(sender: string, text: string, kind: string)

  /** A conversation; `messages` is `None` when the server sent no list at all. */
  datatype Conversation = Conversation(
    id: int,
    name: string,
    preview: string,
    time: string,
    status: string,
    priority: string,
    notificationCount: int,
    messages: Option<seq<Message>>)

  function ConversationId(c: Conversation): int {
    c.id
  }

  /** The messages a conversation shows; a missing list shows none. */
  function Messages(c: Conversation): seq<Message> {
    c.messages.GetOr([])
  }

  /** One conversation after `new-message`: the message pushed, the preview set, the time "Just now". */
  function Delivered(c: Conversation, m: Message, preview: string): Conversation {
    c.(messages := Some(Messages(c) + [m]), preview := preview, time := "Just now")
  }

  /** The list after `new-message`: the first conversation with the id is patched; an unknown id changes nothing. */
  function Deliver(convs: seq<Conversation>, id: int, m: Message, preview: string): seq<Conversation> {
    var i := IndexOf(convs, ConversationId, id);
    if i == -1 then convs else convs[i := Delivered(convs[i], m, preview)]
  }

  /**
   * `new-message` appends exactly one message, at the end, to the conversation with the id
   * (a conversation without a list gets one holding just that message), sets its preview
   * and time and nothing else; every other conversation, and the list's ids, stay as they were.
   */
  lemma DeliverAppendsOne(convs: seq<Conversation>, id: int, m: Message, preview: string)
    ensures var r := Deliver(convs, id, m, preview);
            && SameKeys(r, convs, ConversationId)
            && (IndexOf(convs, ConversationId, id) == -1 ==> r == convs)
            && forall j :: 0 <= j < |convs| && j != IndexOf(convs, ConversationId, id) ==> r[j] == convs[j]
    ensures var r := Deliver(convs, id, m, preview);
            var i := IndexOf(convs, ConversationId, id);
            i != -1 ==>
              && Messages(r[i])[..|Messages(convs[i])|] == Messages(convs[i])
              && |Messages(r[i])| == |Messages(convs[i])| + 1
              && Messages(r[i])[|Messages(convs[i])|] == m
              && (convs[i].messages.None? ==> Messages(r[i]) == [m])
              && r[i].preview == preview && r[i].time == "Just now"
              && r[i].(messages := convs[i].messages, preview := convs[i].preview, time := convs[i].time) == convs[i]
  {
  }

  /** Every conversation's messages before an event are a prefix of its messages after it. */
  ghost predicate MessagesGrow(before: seq<Conversation>, after: seq<Conversation>) {
    && |after| == |before|
    && forall j :: 0 <= j < |before| ==>
         |Messages(before[j])| <= |Messages(after[j])|
         && Messages(after[j])[..|Messages(before[j])|] == Messages(before[j])
  }

  datatype NewMessage = NewMessage(conversationId: int, message: Message, preview: string)

  /** The list after a run of `new-message` events, in arrival order. */
  function DeliverAll(convs: seq<Conversation>, events: seq<NewMessage>): seq<Conversation>
    decreases |events|
  {
    if events == [] then convs
    else DeliverAll(Deliver(convs, events[0].conversationId, events[0].message, events[0].preview), events[1..])
  }

  /** Messages are only ever appended: whatever the events, no message is lost or reordered. */
  lemma {:induction false} MessagesAppendOnly(convs: seq<Conversation>, events: seq<NewMessage>)
    ensures MessagesGrow(convs, DeliverAll(convs, events))
    decreases |events|
  {
    if events == [] {
      forall j | 0 <= j < |convs|
        ensures Messages(convs[j])[..|Messages(convs[j])|] == Messages(convs[j])
      {
      }
    } else {
      var e := events[0];
      var mid := Deliver(convs, e.conversationId, e.message, e.preview);
      DeliverAppendsOne(convs, e.conversationId, e.message, e.preview);
      MessagesAppendOnly(mid, events[1..]);
      var after := DeliverAll(convs, events);
      assert after == DeliverAll(mid, events[1..]);
      forall j | 0 <= j < |convs|
        ensures |Messages(convs[j])| <= |Messages(after[j])|
        ensures Messages(after[j])[..|Messages(convs[j])|] == Messages(convs[j])
      {
        var b, m, a := Messages(convs[j]), Messages(mid[j]), Messages(after[j]);
        assert |b| <= |m| && m[..|b|] == b;
        assert a[..|m|] == m;
        assert a[..|b|] == m[..|b|];
      }
    }
  }

  /** The tag a conversation shows in the list. */
  datatype Tag = PriorityTag(priority: string, caption: string) | StatusTag(status: string)

  /** Unread messages show the priority and their count; otherwise the status is shown. */
  function ConversationTag(c: Conversation): (t: Tag)
    ensures t.PriorityTag? <==> c.notificationCount > 0
    ensures t.PriorityTag? ==> t.priority == c.priority
    ensures t.StatusTag? ==> t.status == c.status
  {
    if c.notificationCount > 0 then
      PriorityTag(c.priority, c.priority + " " + IntToString(c.notificationCount))
    else StatusTag(c.status)
  }

  /** The priority tag's label is the priority, a space, and the unread count in decimal. */
  lemma PriorityTagShowsCount(c: Conversation)
    requires c.notificationCount > 0
    ensures var t := ConversationTag(c);
            && t.caption[..|c.priority| + 1] == c.priority + " "
            && var digits := t.caption[|c.priority| + 1..];
               (forall k :: 0 <= k < |digits| ==> IsDigit(digits[k])) && DigitsValue(digits) == c.notificationCount
  {
    var t := ConversationTag(c);
    assert t.caption[|c.priority| + 1..] == NatToString(c.notificationCount);
    NatToStringRoundTrip(c.notificationCount);
  }

  /** A delivered message leaves the conversation's tag as it was: `new-message` does not touch the unread count. */
  lemma DeliveryKeepsTag(c: Conversation, m: Message, preview: string)
    ensures ConversationTag(Delivered(c, m, preview)) == ConversationTag(c)
  {
  }

  // ---------------------------------------------------------------------------------
  // Outgoing messages.

  const OutgoingSender: string := "Control Center - Just now"

  /**
   * The message form: nothing is sent when the trimmed text is empty or no conversation is
   * active (an id of 0 counts as none, being falsy); otherwise the trimmed text goes to the
   * active conversation as an outgoing message from the control center.
   */
  function SubmitMessage(input: string, active: Option<int>): (r: Option<(int, Message)>)
    ensures r.None? <==> Trim(input) == "" || active.None? || active == Some(0)
    ensures r.Some? ==> && r.value.0 == active.value && r.value.0 != 0
                        && r.value.1.sender == OutgoingSender && r.value.1.kind == "outgoing"
    ensures r.Some? ==> r.value.1.text == Trim(input)
    ensures r.Some? ==> Trimmed(r.value.1.text) && Contains(input, r.value.1.text)
  {
    var text := Trim(input);
    if text == "" || active.None? || active.value == 0 then None
    else
      TrimmedText(input);
      Some((active.value, Message(OutgoingSender, text, "outgoing")))
  }

  /** Only blank input is refused for its text: any text with a visible character is sent once a conversation is open. */
  lemma SubmitRefusesOnlyBlank(input: string, id: int)
    requires id != 0
    ensures SubmitMessage(input, Some(id)).None? <==> forall k :: 0 <= k < |input| ==> IsSpace(input[k])
  {
    TrimEmpty(input);
  }

  // ---------------------------------------------------------------------------------
  // The page state.

  /** The conversation list and the open conversation, as the page keeps them. */
  class ConversationPanel {
    var conversationsData: seq<Conversation>
    var activeConversationId: Option<int>

    constructor ()
      ensures conversationsData == [] && activeConversationId == None
    {
      conversationsData, activeConversationId := [], None;
    }

    /** `initialLoadConversations`: the list is replaced by the server's. */
    method Load(data: seq<Conversation>)
      modifies this
      ensures conversationsData == data
      ensures activeConversationId == old(activeConversationId)
    {
      conversationsData := data;
    }

    /** A click on a list item: it becomes the open conversation, and its messages (if it is known) are shown. */
    method Select(id: int) returns (selected: Option<Conversation>)
      modifies this
      ensures activeConversationId == Some(id)
      ensures conversationsData == old(conversationsData)
      ensures selected.None? <==> IndexOf(conversationsData, ConversationId, id) == -1
      ensures selected.Some? ==> selected.value == conversationsData[IndexOf(conversationsData, ConversationId, id)]
    {
      activeConversationId := Some(id);
      var i := FindIndex(conversationsData, ConversationId, id);
      selected := if i == -1 then None else Some(conversationsData[i]);
    }

    /**
     * `new-message`: the conversation with the id is patched in place and the list redrawn;
     * its messages are redrawn too when it is the open one. An unknown id is ignored.
     */
    method OnNewMessage(conversationId: int, message: Message, preview: string)
      returns (rerendered: bool, messagesShown: bool)
      modifies this
      ensures conversationsData == Deliver(old(conversationsData), conversationId, message, preview)
      ensures activeConversationId == old(activeConversationId)
      ensures rerendered <==> IndexOf(old(conversationsData), ConversationId, conversationId) != -1
      ensures messagesShown <==> rerendered && activeConversationId == Some(conversationId)
    {
      var i := FindIndex(conversationsData, ConversationId, conversationId);
      rerendered := i != -1;
      messagesShown := false;
      if rerendered {
        conversationsData := conversationsData[i := Delivered(conversationsData[i], message, preview)];
        messagesShown := activeConversationId == Some(conversationId);
      }
    }
  }

  // ---------------------------------------------------------------------------------
  // Broadcasts.

  /** A broadcast as the server sends it; only `type` must be a string, the rest is interpolated. */
  datatype BroadcastItem = BroadcastItem(
    kind: string,
    message: JsValue,
    timestamp: JsValue,
    status: JsValue,
    reached: JsValue)

  /** What a broadcast card shows. */
  datatype BroadcastCard = BroadcastCard(
    typeClass: string,
    title: string,
    statusLabel: string,
    message: string,
    timestamp: string,
    reachedLabel: string)

  /** A character that `/[\s/]+/` matches. */
  predicate IsSlugBreak(c: char) {
    IsSpace(c) || c == '/'
  }

  /**
   * `s.replace(/[\s/]+/g, '-')`, read left to right: `inRun` says that the character just
   * before `s` was a break, so a break that continues a run adds nothing.
   */
  function Collapse(s: string, inRun: bool): string
    decreases |s|
  {
    if s == [] then []
    else if IsSlugBreak(s[0]) then (if inRun then "" else "-") + Collapse(s[1..], true)
    else [s[0]] + Collapse(s[1..], false)
  }

  /** The replacement over a whole string. */
  function CollapseBreaks(s: string): string {
    Collapse(s, false)
  }

  /** The broadcast card's CSS type: `type.toLowerCase().replace(/[\s/]+/g, '-')`. */
  function BroadcastSlug(kind: string): (r: string)
    ensures forall k :: 0 <= k < |r| ==> !IsSpace(r[k]) && r[k] != '/'
  {
    CollapseHasNoBreaks(Lower(kind), false);
    CollapseBreaks(Lower(kind))
  }

  /** No white space and no '/' survive the replacement. */
  lemma {:induction false} CollapseHasNoBreaks(s: string, inRun: bool)
    ensures forall k :: 0 <= k < |Collapse(s, inRun)| ==> !IsSlugBreak(Collapse(s, inRun)[k])
    decreases |s|
  {
    if s != [] {
      CollapseHasNoBreaks(s[1..], IsSlugBreak(s[0]));
    }
  }

  /** A non-empty run of breaks yields one '-' (none when it continues a run), then the rest as after a break. */
  lemma {:induction false} CollapseRunThen(run: string, b: string, inRun: bool)
    requires |run| > 0 && forall k :: 0 <= k < |run| ==> IsSlugBreak(run[k])
    ensures Collapse(run + b, inRun) == (if inRun then "" else "-") + Collapse(b, true)
    decreases |run|
  {
    assert (run + b)[0] == run[0];
    assert (run + b)[1..] == run[1..] + b;
    if |run| > 1 {
      CollapseRunThen(run[1..], b, true);
    } else {
      assert run[1..] + b == b;
    }
  }

  /** Text that starts with a visible character does not care whether a run came before it. */
  lemma CollapseVisibleStart(b: string, inRun: bool)
    requires |b| > 0 ==> !IsSlugBreak(b[0])
    ensures Collapse(b, inRun) == Collapse(b, false)
  {
  }

  /** Text that ends with a visible character collapses independently of what follows it. */
  lemma {:induction false} CollapseAppend(a: string, t: string, inRun: bool)
    requires |a| > 0 && !IsSlugBreak(a[|a| - 1])
    ensures Collapse(a + t, inRun) == Collapse(a, inRun) + Collapse(t, false)
    decreases |a|
  {
    var head := if IsSlugBreak(a[0]) then (if inRun then "" else "-") else [a[0]];
    assert (a + t)[0] == a[0];
    assert (a + t)[1..] == a[1..] + t;
    assert Collapse(a + t, inRun) == head + Collapse(a[1..] + t, IsSlugBreak(a[0]));
    assert Collapse(a, inRun) == head + Collapse(a[1..], IsSlugBreak(a[0]));
    if |a| == 1 {
      assert a[1..] + t == t;
      assert Collapse(a[1..], false) == [];
    } else {
      CollapseAppend(a[1..], t, IsSlugBreak(a[0]));
    }
  }

  /**
   * Each maximal run of white space and '/' becomes exactly one '-': a run between two
   * visible characters (or an end of the string) is replaced as a whole.
   */
  lemma CollapseRun(a: string, run: string, b: string)
    requires |run| > 0 && forall k :: 0 <= k < |run| ==> IsSlugBreak(run[k])
    requires |a| > 0 ==> !IsSlugBreak(a[|a| - 1])
    requires |b| > 0 ==> !IsSlugBreak(b[0])
    ensures CollapseBreaks(a + (run + b)) == CollapseBreaks(a) + "-" + CollapseBreaks(b)
  {
    CollapseRunThen(run, b, false);
    CollapseVisibleStart(b, true);
    if |a| == 0 {
      assert a + (run + b) == run + b;
    } else {
      CollapseAppend(a, run + b, false);
    }
  }

  /** A string with no white space and no '/' is left as it is. */
  lemma {:induction false} CollapseNoBreaks(s: string, inRun: bool)
    requires forall k :: 0 <= k < |s| ==> !IsSlugBreak(s[k])
    ensures Collapse(s, inRun) == s
    decreases |s|
  {
    if s != [] {
      CollapseNoBreaks(s[1..], false);
      assert [s[0]] + s[1..] == s;
    }
  }

  /** Collapsing introduces no character other than '-'. */
  lemma {:induction false} CollapseKeepsCharacters(s: string, inRun: bool)
    ensures forall k :: 0 <= k < |Collapse(s, inRun)| ==> Collapse(s, inRun)[k] == '-' || Collapse(s, inRun)[k] in s
    decreases |s|
  {
    if s != [] {
      var tail := s[1..];
      var run := IsSlugBreak(s[0]);
      var head := if run then (if inRun then "" else "-") else [s[0]];
      CollapseKeepsCharacters(tail, run);
      assert Collapse(s, inRun) == head + Collapse(tail, run);
      forall k | |head| <= k < |Collapse(s, inRun)|
        ensures Collapse(s, inRun)[k] == '-' || Collapse(s, inRun)[k] in s
      {
        var c := Collapse(tail, run)[k - |head|];
        if c != '-' {
          var j :| 0 <= j < |tail| && tail[j] == c;
          assert s[j + 1] == c;
        }
      }
    }
  }

  /** The slug of a slug is itself. */
  lemma BroadcastSlugIdempotent(kind: string)
    ensures BroadcastSlug(BroadcastSlug(kind)) == BroadcastSlug(kind)
  {
    var r := BroadcastSlug(kind);
    CollapseKeepsCharacters(Lower(kind), false);
    CollapseHasNoBreaks(Lower(kind), false);
    forall k | 0 <= k < |r|
      ensures LowerChar(r[k]) == r[k]
    {
      if r[k] != '-' {
        var j :| 0 <= j < |Lower(kind)| && Lower(kind)[j] == r[k];
      }
    }
    assert Lower(r) == r;
    CollapseNoBreaks(r, false);
  }

  /** `createBroadcastCardHTML` and the class `renderBroadcasts` gives the card. */
  function BroadcastCardFor(item: BroadcastItem): BroadcastCard {
    BroadcastCard(
      BroadcastSlug(item.kind),
      item.kind,
      if Truthy(item.status) then ToJsString(item.status) else "delivered",
      ToJsString(item.message),
      ToJsString(item.timestamp),
      if Truthy(item.reached) then ToJsString(item.reached) else "N/A")
  }

  /** `String(v)` of a truthy value other than an array is never empty. */
  lemma TruthyShowsText(v: JsValue)
    requires Truthy(v) && !v.Arr?
    ensures ToJsString(v) != ""
  {
  }

  /**
   * A falsy status reads "delivered" and a falsy reach "N/A" (so a reach of 0 reads "N/A");
   * a truthy one is shown as it is, and the status label is empty only for an array status.
   */
  lemma BroadcastDefaults(item: BroadcastItem)
    ensures var card := BroadcastCardFor(item);
            && (Truthy(item.status) ==> card.statusLabel == ToJsString(item.status))
            && (!Truthy(item.status) ==> card.statusLabel == "delivered")
            && (Truthy(item.reached) ==> card.reachedLabel == ToJsString(item.reached))
            && (!Truthy(item.reached) ==> card.reachedLabel == "N/A")
            && (!item.status.Arr? ==> card.statusLabel != "")
            && (!item.reached.Arr? ==> card.reachedLabel != "")
  {
    if Truthy(item.status) && !item.status.Arr? {
      TruthyShowsText(item.status);
    }
    if Truthy(item.reached) && !item.reached.Arr? {
      TruthyShowsText(item.reached);
    }
  }

  /** `renderBroadcasts`: the fetched list, one card per item, in the server's order. */
  function FeedCards(items: seq<BroadcastItem>): (r: seq<BroadcastCard>)
    ensures |r| == |items|
    ensures forall k :: 0 <= k < |items| ==> r[k] == BroadcastCardFor(items[k])
  {
    seq(|items|, k requires 0 <= k < |items| => BroadcastCardFor(items[k]))
  }

  /** The feed after a run of `new-broadcast` pushes, each prepended as it arrives. */
  function PushAll(feed: seq<BroadcastCard>, pushes: seq<BroadcastItem>): seq<BroadcastCard>
    decreases |pushes|
  {
    if pushes == [] then feed else PushAll([BroadcastCardFor(pushes[0])] + feed, pushes[1..])
  }

  /** Pushed broadcasts appear newest first, above the fetched list. */
  lemma {:induction false} FeedNewestFirst(initial: seq<BroadcastItem>, pushes: seq<BroadcastItem>)
    ensures PushAll(FeedCards(initial), pushes) == FeedCards(Reversed(pushes) + initial)
    decreases |pushes|
  {
    if pushes != [] {
      var head := [pushes[0]] + initial;
      assert FeedCards(head) == [BroadcastCardFor(pushes[0])] + FeedCards(initial);
      FeedNewestFirst(head, pushes[1..]);
      ReversedCons(pushes, initial);
    }
  }

  // ---------------------------------------------------------------------------------
  // The broadcast form.

  /** The request body of a broadcast. */
  datatype BroadcastRequest = BroadcastRequest(kind: string, message: string, priority: string, target: string)

  /** The first option of the region list, shown before any region is chosen. */
  const TargetPlaceholder: SelectOption := SelectOption("Select target...", Some(""))

  /**
   * The form as written: the type and target are read from the selected options' text,
   * and every field is required to be non-empty.
   */
  function SendBroadcastAsWritten(message: string, kind: SelectOption, target: SelectOption, priority: string)
    : (r: Option<BroadcastRequest>)
    ensures r.None? <==> message == "" || kind.text == "" || target.text == "" || priority == ""
  {
    if message == "" || kind.text == "" || target.text == "" || priority == "" then None
    else Some(BroadcastRequest(kind.text, message, priority, target.text))
  }

  /** As written, a broadcast with no region chosen goes out, addressed to "Select target...". */
  lemma PlaceholderTargetAccepted()
    ensures SendBroadcastAsWritten("Road closed", SelectOption("Weather", None), TargetPlaceholder, "high")
            == Some(BroadcastRequest("Weather", "Road closed", "high", "Select target..."))
  {
  }

  /** The form with the target checked by the selected option's value, which is empty for the placeholder. */
  function SendBroadcast(message: string, kind: SelectOption, target: SelectOption, priority: string)
    : (r: Option<BroadcastRequest>)
    ensures r.None? <==> message == "" || kind.text == "" || OptionValue(target) == "" || priority == ""
    ensures r.Some? ==> && r.value.message != "" && r.value.kind != "" && r.value.priority != ""
                        && r.value.target == target.text
  {
    if message == "" || kind.text == "" || OptionValue(target) == "" || priority == "" then None
    else Some(BroadcastRequest(kind.text, message, priority, target.text))
  }

  /** No broadcast leaves without a chosen region, and a chosen region's broadcast is the as-written one. */
  lemma BroadcastNeedsRegion(message: string, kind: SelectOption, target: SelectOption, priority: string)
    ensures SendBroadcast(message, kind, TargetPlaceholder, priority).None?
    ensures OptionValue(target) != "" && target.text != "" ==>
              SendBroadcast(message, kind, target, priority) == SendBroadcastAsWritten(message, kind, target, priority)
  {
  }
}
