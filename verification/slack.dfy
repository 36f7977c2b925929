/**
  The in-memory Slack stand-in (integrations/mock/slack.py): a log of posted
  messages, reactions appended to them in place, and look-ups of a
  channel's recent messages. The posting time is the parameter `timestamp`.
*/
module SlackMock {
  import opened Wrappers

  /** `MockSlackMessage`: channel, text and timestamp are fixed; reactions grow in place. */
  class SlackMessage {
    const channel: string
    const text: string
    const timestamp: string
    var reactions: seq<string>

    constructor (channel: string, text: string, timestamp: string)
      ensures this.channel == channel && this.text == text && this.timestamp == timestamp
      ensures reactions == []
    {
      this.channel := channel;
      this.text := text;
      this.timestamp := timestamp;
      reactions := [];
    }
  }

  /** The dictionary `post_message` answers with. */
  datatype PostReply = PostReply(ok: bool, ts: string, text: string, channel: string)

  /** The dictionary `add_reaction` answers with. */
  datatype ReactionReply = ReactionOk | ReactionError(error: string)

  const MESSAGE_NOT_FOUND := "message_not_found"

  /** The position of the first message posted to `channel` at `timestamp`, or `|ms|`. */
  function FirstMatch(ms: seq<SlackMessage>, channel: string, timestamp: string): (k: nat)
    ensures k <= |ms|
    ensures k < |ms| ==> ms[k].channel == channel && ms[k].timestamp == timestamp
    ensures forall j | 0 <= j < k :: !(ms[j].channel == channel && ms[j].timestamp == timestamp)
  {
    if ms == [] then 0
    else if ms[0].channel == channel && ms[0].timestamp == timestamp then 0
    else 1 + FirstMatch(ms[1..], channel, timestamp)
  }

  /** `[m for m in messages if m.channel == channel]`. */
  function InChannel(ms: seq<SlackMessage>, channel: string): (r: seq<SlackMessage>)
    ensures |r| <= |ms|
    ensures forall m | m in r :: m in ms && m.channel == channel
  {
    if ms == [] then []
    else if ms[0].channel == channel then [ms[0]] + InChannel(ms[1..], channel)
    else InChannel(ms[1..], channel)
  }

  /**
    `channel_msgs[-lookback]` with Python's indexing: a positive lookback
    counts back from the newest message, zero or a negative one counts
    forward from the oldest, and an index outside the list gives None.
  */
  function Lookback(ms: seq<SlackMessage>, channel: string, lookback: int): (r: Option<SlackMessage>)
    ensures var c := InChannel(ms, channel);
      && (1 <= lookback <= |c| ==> r == Some(c[|c| - lookback]))
      && (lookback > |c| || -lookback >= |c| ==> r == None)
      && (0 <= -lookback < |c| ==> r == Some(c[-lookback]))
  {
    var c := InChannel(ms, channel);
    var i := -lookback;
    if -|c| <= i < |c| then Some(c[if i < 0 then i + |c| else i]) else None
  }

  /** A message posted to one channel is the newest there and pushes the others back by one. */
  lemma {:induction false} InChannelAppend(ms: seq<SlackMessage>, m: SlackMessage, channel: string)
    ensures InChannel(ms + [m], channel) == InChannel(ms, channel) + (if m.channel == channel then [m] else [])
  {
    if ms != [] {
      InChannelAppend(ms[1..], m, channel);
      assert (ms + [m])[1..] == ms[1..] + [m];
    }
  }

  lemma NewestAfterPost(ms: seq<SlackMessage>, m: SlackMessage, lookback: int)
    requires lookback >= 1
    ensures Lookback(ms + [m], m.channel, 1) == Some(m)
    ensures Lookback(ms + [m], m.channel, lookback + 1) == Lookback(ms, m.channel, lookback)
  {
    InChannelAppend(ms, m, m.channel);
  }

  lemma OtherChannelUnaffected(ms: seq<SlackMessage>, m: SlackMessage, channel: string, lookback: int)
    requires m.channel != channel
    ensures Lookback(ms + [m], channel, lookback) == Lookback(ms, channel, lookback)
  {
    InChannelAppend(ms, m, channel);
  }

  /** `MockSlackClient`: the message log and an unused message counter. */
  class MockSlackClient {
    var messages: seq<SlackMessage>
    var messageId: int

    /** Every logged message is its own object, as each post creates a new one. */
    predicate Valid()
      reads this
    {
      forall i, j | 0 <= i < j < |messages| :: messages[i] != messages[j]
    }

    constructor ()
      ensures Valid() && messages == [] && messageId == 1
    {
      messages := [];
      messageId := 1;
    }

    /** `post_message`: one new message with no reactions at the end of the log. */
    method PostMessage(channel: string, text: string, timestamp: string) returns (reply: PostReply)
      requires Valid()
      modifies this
      ensures Valid()
      ensures |messages| == |old(messages)| + 1 && messages[..|old(messages)|] == old(messages)
      ensures var m := messages[|messages| - 1];
        && fresh(m) && m.channel == channel && m.text == text && m.timestamp == timestamp && m.reactions == []
      ensures messageId == old(messageId)
      ensures reply == PostReply(true, timestamp, text, channel)
    {
      var msg := new SlackMessage(channel, text, timestamp);
      messages := messages + [msg];
      reply := PostReply(true, msg.timestamp, text, channel);
    }

    /**
      `add_reaction`: the emoji is appended to the first message with this
      channel and timestamp; with none, an error and no change.
    */
    method AddReaction(channel: string, timestamp: string, emoji: string) returns (reply: ReactionReply)
      requires Valid()
      modifies messages
      ensures var k := FirstMatch(messages, channel, timestamp);
        && (k < |messages| ==> (reply == ReactionOk && messages[k].reactions == old(messages[k].reactions) + [emoji]))
        && (k == |messages| ==> reply == ReactionError(MESSAGE_NOT_FOUND))
        && forall j | 0 <= j < |messages| && j != k :: messages[j].reactions == old(messages[j].reactions)
    {
      var i := 0;
      while i < |messages|
        invariant 0 <= i <= |messages|
        invariant forall j | 0 <= j < i :: !(messages[j].channel == channel && messages[j].timestamp == timestamp)
        invariant forall j | 0 <= j < |messages| :: messages[j].reactions == old(messages[j].reactions)
      {
        var msg := messages[i];
        if msg.channel == channel && msg.timestamp == timestamp {
          msg.reactions := msg.reactions + [emoji];
          return ReactionOk;
        }
        i := i + 1;
      }
      return ReactionError(MESSAGE_NOT_FOUND);
    }

    /** `get_message`: the `lookback`-th most recent message of the channel, as `Lookback` picks it. */
    function GetMessage(channel: string, lookback: int := 1): (r: Option<SlackMessage>)
      reads this
      ensures r.Some? ==> r.value in messages && r.value.channel == channel
    {
      Lookback(messages, channel, lookback)
    }

    /** `clear_messages`: an empty log. */
    method ClearMessages()
      modifies this
      ensures Valid() && messages == [] && messageId == old(messageId)
    {
      messages := [];
    }
  }

  /** The text `send_task_assignment` posts. */
  function AssignmentText(taskId: string): string {
    "Task " + taskId + " has been assigned."
  }

  /** `part` occurs in `s` at position `i`. */
  predicate OccursAt(s: string, part: string, i: nat) {
    i + |part| <= |s| && s[i..i + |part|] == part
  }

  /** Python's `part in s` on strings. */
  ghost predicate Contains(s: string, part: string) {
    exists i: nat :: OccursAt(s, part, i)
  }

  /** The assignment message names the task. */
  lemma AssignmentTextNamesTask(taskId: string)
    ensures Contains(AssignmentText(taskId), taskId)
  {
    assert OccursAt(AssignmentText(taskId), taskId, 5);
  }

  /** `send_task_assignment`: one message announcing the task on the channel. */
  method SendTaskAssignment(client: MockSlackClient, taskId: string, channel: string, timestamp: string)
    requires client.Valid()
    modifies client
    ensures client.Valid()
    ensures |client.messages| == |old(client.messages)| + 1
    ensures client.messages[..|old(client.messages)|] == old(client.messages)
    ensures var m := client.messages[|client.messages| - 1];
      && m.channel == channel && m.text == AssignmentText(taskId) && Contains(m.text, taskId)
  {
    var _ := client.PostMessage(channel, AssignmentText(taskId), timestamp);
    AssignmentTextNamesTask(taskId);
  }
}
