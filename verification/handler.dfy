/**
  The bot cog of `imghandler.py`: the record store, the handling of one submission, the
  channel filter for new messages, and the catch-up over missed submissions at start-up.
  Discord and the pickle file are not modelled; the bot's observable effects (records,
  summary posts, reactions, log lines) are collected in a `Bot` value instead.
 */
module Handler {
  import opened Wrappers
  import Text
  import Layout
  import Acquire
  import Pipeline

  /** The only keys a stored record may have. */
  const AllowedKeys: seq<string> :=
    ["timestamp", "user_id", "score", "chain_bt", "chain_long", "chain_vol", "message_link"]
  const AllowedKeySet: set<string> := set k | k in AllowedKeys

  /** The Python values stored in a record. */
  datatype Value = Str(s: string) | Int(i: int) | Time(t: real) | NoneValue

  /** A score record: a dictionary from key to value. */
  type Record = map<string, Value>

  /** The dictionary comprehension of `_save_data`: keep the allowed keys only. */
  function FilterAllowed(data: Record): (r: Record)
    ensures r.Keys == data.Keys * AllowedKeySet
    ensures forall k :: k in r ==> r[k] == data[k]
  {
    map k | k in data && k in AllowedKeys :: data[k]
  }

  /** Filtering twice is filtering once; a record with allowed keys only passes unchanged. */
  lemma FilterAllowedIdempotent(data: Record)
    ensures FilterAllowed(FilterAllowed(data)) == FilterAllowed(data)
    ensures data.Keys <= AllowedKeySet ==> FilterAllowed(data) == data
  {
  }

  /** `_save_data` on the record list: append the filtered record, keep every earlier one. */
  function SaveData(db: seq<Record>, data: Record): (r: seq<Record>)
    ensures |r| == |db| + 1
    ensures r[..|db|] == db
    ensures r[|db|].Keys == data.Keys * AllowedKeySet
    ensures forall k :: k in r[|db|] ==> r[|db|][k] == data[k]
  {
    db + [FilterAllowed(data)]
  }

  datatype Reaction = Reaction(emoji: string, me: bool)

  /** A Discord message, its attachments given by what reading and decoding each one does. */
  datatype Message<Img> = Message(
    id: nat,
    authorId: nat,
    channel: nat,
    jumpUrl: string,
    reactions: seq<Reaction>,
    attachments: seq<Acquire.ReadOutcome<Img>>)

  /** One call of `bot.log(category, message)`. */
  datatype LogEntry = LogEntry(category: string, text: string)

  /** A message posted to the summary channel: the submission's link and the summary image. */
  datatype Post<Img> = Post(content: string, image: Layout.Composite<Img>)

  /**
    The cog's state and effects: the image channel once known, the record list, the summary
    posts, the reactions added (message id, emoji), and the log lines.
   */
  datatype Bot<Img> = Bot(
    imageChannel: Option<nat>,
    db: seq<Record>,
    summaries: seq<Post<Img>>,
    reactions: seq<(nat, string)>,
    log: seq<LogEntry>)

  /**
    What the host supplies while handling the message with a given id: the clock reading
    `time.time()`, and the jump URL Discord gives the summary post.
   */
  datatype Host = Host(clock: nat -> real, summaryLink: nat -> string)

  const Processed: string := "\U{2705}"

  function OptionValue(x: Option<int>): Value {
    match x
    case None => NoneValue
    case Some(i) => Int(i)
  }

  /** The dictionary `process_message` passes to `_save_data`. */
  function BuildRecord(timestamp: real, userId: string, score: nat, totals: Pipeline.ChainTotals, link: string)
    : Record
  {
    map[
      "timestamp" := Time(timestamp),
      "user_id" := Str(userId),
      "score" := Int(score),
      "chain_bt" := OptionValue(totals.bt),
      "chain_long" := OptionValue(totals.long),
      "chain_vol" := OptionValue(totals.vol),
      "message_link" := Str(link)]
  }

  /** The record built has exactly the allowed keys, so saving it drops nothing. */
  lemma NothingDropped(timestamp: real, userId: string, score: nat, totals: Pipeline.ChainTotals, link: string)
    ensures BuildRecord(timestamp, userId, score, totals, link).Keys == AllowedKeySet
    ensures FilterAllowed(BuildRecord(timestamp, userId, score, totals, link))
            == BuildRecord(timestamp, userId, score, totals, link)
  {
  }

  /** The log line of a failed submission: `f'Error: msg-id={msg.id}, reason={result["msg"]}'`. */
  function ErrorLine(id: nat, reason: string): LogEntry {
    LogEntry("ImgHandler", "Error: msg-id=" + Text.Decimal(id) + ", reason=" + reason)
  }

  /**
    `process_message` as intended: on a failed run, log and return with nothing saved,
    posted or reacted; otherwise post the summary, save the record (its file write
    succeeding), and react to the submission.
   */
  function ProcessMessage<Img(!new)>(v: Pipeline.Vision<Img>, host: Host, bot: Bot<Img>, msg: Message<Img>)
    : (r: Bot<Img>)
    requires Pipeline.Valid(v)
    ensures r.imageChannel == bot.imageChannel
    ensures Pipeline.MessageToImage(v, msg.attachments).Failed? ==>
              && r.db == bot.db && r.summaries == bot.summaries && r.reactions == bot.reactions
              && r.log == bot.log + [ErrorLine(msg.id, Pipeline.MessageToImage(v, msg.attachments).msg)]
    ensures Pipeline.MessageToImage(v, msg.attachments).Succeeded? ==>
              var out := Pipeline.MessageToImage(v, msg.attachments);
              && r.log == bot.log
              && r.summaries == bot.summaries + [Post(msg.jumpUrl, out.image)]
              && r.reactions == bot.reactions + [(msg.id, Processed)]
              && r.db == bot.db + [BuildRecord(host.clock(msg.id), Text.Decimal(msg.authorId), out.score, out.totals,
                                               host.summaryLink(msg.id))]
  {
    match Pipeline.MessageToImage(v, msg.attachments)
    case Failed(reason) =>
      bot.(log := bot.log + [ErrorLine(msg.id, reason)])
    case Succeeded(image, score, totals) =>
      var summaryLink := host.summaryLink(msg.id);
      var rec := BuildRecord(host.clock(msg.id), Text.Decimal(msg.authorId), score, totals, summaryLink);
      NothingDropped(host.clock(msg.id), Text.Decimal(msg.authorId), score, totals, summaryLink);
      bot.(summaries := bot.summaries + [Post(msg.jumpUrl, image)],
           db := SaveData(bot.db, rec),
           reactions := bot.reactions + [(msg.id, Processed)])
  }

  /**
    `process_message` as written: `_save_data` opens the record file in text mode, so
    `pickle.dump`, which writes bytes, raises `TypeError` right after the in-memory append.
    The summary is already posted and the record appended, but the exception leaves the
    method before the reaction is added.
   */
  function ProcessMessageAsWritten<Img(!new)>(v: Pipeline.Vision<Img>, host: Host, bot: Bot<Img>, msg: Message<Img>)
    : (r: Bot<Img>)
    requires Pipeline.Valid(v)
    ensures r.reactions == bot.reactions
    ensures var intended := ProcessMessage(v, host, bot, msg);
            r.imageChannel == intended.imageChannel && r.db == intended.db
            && r.summaries == intended.summaries && r.log == intended.log
  {
    match Pipeline.MessageToImage(v, msg.attachments)
    case Failed(reason) =>
      bot.(log := bot.log + [ErrorLine(msg.id, reason)])
    case Succeeded(image, score, totals) =>
      var summaryLink := host.summaryLink(msg.id);
      var rec := BuildRecord(host.clock(msg.id), Text.Decimal(msg.authorId), score, totals, summaryLink);
      bot.(summaries := bot.summaries + [Post(msg.jumpUrl, image)],
           db := SaveData(bot.db, rec))
  }

  /**
    As written, a submission the pipeline reads successfully is posted and recorded but
    never marked with the check-mark reaction, which the intended version adds.
   */
  lemma AsWrittenNeverReacts<Img(!new)>(v: Pipeline.Vision<Img>, host: Host, bot: Bot<Img>, msg: Message<Img>)
    requires Pipeline.Valid(v)
    ensures Pipeline.MessageToImage(v, msg.attachments).Succeeded? ==>
              (msg.id, Processed) !in ProcessMessageAsWritten(v, host, bot, msg).reactions[|bot.reactions|..]
    ensures Pipeline.MessageToImage(v, msg.attachments).Succeeded? ==>
              ProcessMessage(v, host, bot, msg).reactions[|bot.reactions|..] == [(msg.id, Processed)]
  {
  }

  /** `on_message`: only messages in the image channel are handled. */
  function OnMessage<Img(!new)>(v: Pipeline.Vision<Img>, host: Host, bot: Bot<Img>, msg: Message<Img>)
    : (r: Bot<Img>)
    requires Pipeline.Valid(v)
    ensures bot.imageChannel != Some(msg.channel) ==> r == bot
    ensures bot.imageChannel == Some(msg.channel) ==> r == ProcessMessage(v, host, bot, msg)
  {
    if bot.imageChannel == Some(msg.channel) then ProcessMessage(v, host, bot, msg) else bot
  }

  /** The bot has already reacted to the message, so it was handled before. */
  predicate ReactedByMe<Img>(m: Message<Img>) {
    exists i :: 0 <= i < |m.reactions| && m.reactions[i].me
  }

  /** `history(limit=100)` yields at most this many messages. */
  const HistoryLimit: nat := 100

  /** The messages before the first one the bot reacted to. */
  function UnreactedPrefix<Img>(h: seq<Message<Img>>): (p: seq<Message<Img>>)
    ensures |p| <= |h| && p == h[..|p|]
    ensures forall i :: 0 <= i < |p| ==> !ReactedByMe(p[i])
    ensures |p| < |h| ==> ReactedByMe(h[|p|])
  {
    if |h| == 0 || ReactedByMe(h[0]) then []
    else
      var rest := UnreactedPrefix(h[1..]);
      assert h[1..][..|rest|] == h[1..|rest| + 1];
      [h[0]] + rest
  }

  /**
    The stack `on_ready` collects from the channel history (newest first): the longest
    prefix of the 100 newest messages none of which carries the bot's own reaction.
   */
  function MissedMessages<Img>(history: seq<Message<Img>>): (m: seq<Message<Img>>)
    ensures |m| <= HistoryLimit && |m| <= |history| && m == history[..|m|]
    ensures forall i :: 0 <= i < |m| ==> !ReactedByMe(m[i])
    ensures |m| < |history| && |m| < HistoryLimit ==> ReactedByMe(history[|m|])
    ensures forall i :: 0 <= i < |m| ==> !ReactedByMe(history[i])
  {
    var window := if |history| <= HistoryLimit then history else history[..HistoryLimit];
    UnreactedPrefix(window)
  }

  /** The first message the bot reacted to, and every older one, are left out. */
  lemma MissedStopsAtFirstReacted<Img>(history: seq<Message<Img>>, j: nat)
    requires j < |history| && ReactedByMe(history[j])
    ensures MissedMessages(history) <= history[..j]
  {
  }

  function Reverse<T>(s: seq<T>): (r: seq<T>)
    ensures |r| == |s|
    ensures forall i :: 0 <= i < |s| ==> r[i] == s[|s| - 1 - i]
  {
    if |s| == 0 then [] else Reverse(s[1..]) + [s[0]]
  }

  /** `process_message` awaited on each message in turn. */
  function ProcessAll<Img(!new)>(v: Pipeline.Vision<Img>, host: Host, bot: Bot<Img>, msgs: seq<Message<Img>>)
    : (r: Bot<Img>)
    requires Pipeline.Valid(v)
    ensures r.imageChannel == bot.imageChannel
    ensures |r.db| + |r.log| == |bot.db| + |bot.log| + |msgs|
    ensures |r.db| >= |bot.db| && |r.log| >= |bot.log|
    ensures r.db[..|bot.db|] == bot.db && r.log[..|bot.log|] == bot.log
    decreases |msgs|
  {
    if |msgs| == 0 then bot
    else
      var next := ProcessMessage(v, host, bot, msgs[0]);
      var r := ProcessAll(v, host, next, msgs[1..]);
      assert r.db[..|bot.db|] == r.db[..|next.db|][..|bot.db|];
      assert r.log[..|bot.log|] == r.log[..|next.log|][..|bot.log|];
      r
  }

  /** Processing a sequence is processing its first part, then its second. */
  lemma {:induction false} ProcessAllAppend<Img(!new)>(
    v: Pipeline.Vision<Img>, host: Host, bot: Bot<Img>, a: seq<Message<Img>>, b: seq<Message<Img>>)
    requires Pipeline.Valid(v)
    ensures ProcessAll(v, host, bot, a + b) == ProcessAll(v, host, ProcessAll(v, host, bot, a), b)
    decreases |a|
  {
    if |a| > 0 {
      assert (a + b)[1..] == a[1..] + b;
      ProcessAllAppend(v, host, ProcessMessage(v, host, bot, a[0]), a[1..], b);
    } else {
      assert a + b == b;
    }
  }

  /** The intended catch-up: the missed messages handled in reverse, i.e. oldest first. */
  function CatchUp<Img(!new)>(v: Pipeline.Vision<Img>, host: Host, bot: Bot<Img>, history: seq<Message<Img>>)
    : Bot<Img>
    requires Pipeline.Valid(v)
  {
    ProcessAll(v, host, bot, Reverse(MissedMessages(history)))
  }

  /** Message ids grow with time, so a newest-first history has strictly decreasing ids. */
  predicate NewestFirst<Img>(history: seq<Message<Img>>) {
    forall i, j :: 0 <= i < j < |history| ==> history[i].id > history[j].id
  }

  /**
    The catch-up handles exactly the missed messages, one at a time and in chronological
    order: each step is one `process_message`, on a message older than every later step's.
   */
  lemma CatchUpOldestFirst<Img(!new)>(
    v: Pipeline.Vision<Img>, host: Host, bot: Bot<Img>, history: seq<Message<Img>>)
    requires Pipeline.Valid(v) && NewestFirst(history)
    ensures var order := Reverse(MissedMessages(history));
            && |order| == |MissedMessages(history)|
            && (forall i, j :: 0 <= i < j < |order| ==> order[i].id < order[j].id)
            && (forall m :: m in order <==> m in MissedMessages(history))
            && (|order| > 0 ==> CatchUp(v, host, bot, history)
                                == ProcessAll(v, host, ProcessMessage(v, host, bot, order[0]), order[1..]))
            && |CatchUp(v, host, bot, history).db| + |CatchUp(v, host, bot, history).log|
               == |bot.db| + |bot.log| + |order|
  {
    var missed := MissedMessages(history);
    var order := Reverse(missed);
    forall m | m in missed ensures m in order {
      var i :| 0 <= i < |missed| && missed[i] == m;
      assert order[|missed| - 1 - i] == m;
    }
  }

  /** `on_ready` as intended: record the image channel, then catch up. */
  function OnReady<Img(!new)>(
    v: Pipeline.Vision<Img>, host: Host, bot: Bot<Img>, channel: nat, history: seq<Message<Img>>)
    : (r: Bot<Img>)
    requires Pipeline.Valid(v)
    ensures r.imageChannel == Some(channel)
    ensures |r.db| + |r.log| == |bot.db| + |bot.log| + |MissedMessages(history)|
  {
    CatchUp(v, host, bot.(imageChannel := Some(channel)), history)
  }

  /**
    `on_ready` as written: the missed messages are collected, but `async for` over the
    reversed list raises a `TypeError` before the loop body runs (and the body never
    awaits `process_message` anyway), so only the channel is recorded.
   */
  function OnReadyAsWritten<Img>(bot: Bot<Img>, channel: nat, history: seq<Message<Img>>): (r: Bot<Img>)
    ensures r.imageChannel == Some(channel)
    ensures r.db == bot.db && r.log == bot.log && r.summaries == bot.summaries && r.reactions == bot.reactions
  {
    bot.(imageChannel := Some(channel))
  }

  /**
    As written, `on_ready` leaves every missed submission unhandled: with at least one
    missed message, the intended version saves or logs something and the written one does not.
   */
  lemma AsWrittenSkipsMissed<Img(!new)>(
    v: Pipeline.Vision<Img>, host: Host, bot: Bot<Img>, channel: nat, history: seq<Message<Img>>)
    requires Pipeline.Valid(v)
    requires |history| > 0 && !ReactedByMe(history[0])
    ensures |MissedMessages(history)| > 0
    ensures |OnReadyAsWritten(bot, channel, history).db| + |OnReadyAsWritten(bot, channel, history).log|
            == |bot.db| + |bot.log|
    ensures |OnReady(v, host, bot, channel, history).db| + |OnReady(v, host, bot, channel, history).log|
            > |bot.db| + |bot.log|
  {
  }
}
