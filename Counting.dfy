/**
 * The counting game: in each guild's configured channel, members post 1, 2, 3, ... in turn.
 * A message that is not a number, not the next number, or from whoever counted last is
 * refused; an accepted number advances the guild's count and may hit a milestone.
 */
module Counting {
  import opened Wrappers
  import opened Text

  /** A guild's `counting_channels` document; `current_count` may be missing (read as 0). */
  datatype CountingRecord = CountingRecord(channelId: int, currentCount: Option<int>, lastUserId: Option<int>)

  /** The parts of a chat message the game looks at. */
  datatype Message = Message(authorId: int, authorIsBot: bool, guildId: int, channelId: int, content: string)

  /** What the listener does with a message. */
  datatype Verdict =
    | Ignored                      // a bot, or not the guild's counting channel
    | NotANumber                   // deleted: "this channel supports only numbers"
    | WrongNumber(expected: int)   // deleted: "wrong number! The next number is ..."
    | CountedTwice                 // deleted: "you can't count twice in a row"
    | Accepted(number: nat)

  /** The milestone announcements, by number. */
  const Milestones: map<int, string> :=
    map[
      69 := "Nice! 😎",
      100 := "🎉 Century mark! Keep counting!",
      111 := "All ones! 1️⃣1️⃣1️⃣",
      222 := "All twos! 2️⃣2️⃣2️⃣",
      333 := "All threes! 3️⃣3️⃣3️⃣",
      444 := "All fours! 4️⃣4️⃣4️⃣",
      500 := "Half a thousand! You're doing great! 🌟",
      555 := "All fives! 5️⃣5️⃣5️⃣",
      666 := "Spooky number! 👻",
      777 := "Lucky sevens! 🎰",
      888 := "All eights! 8️⃣8️⃣8️⃣",
      999 := "All nines! 9️⃣9️⃣9️⃣",
      1000 := "🎊 ONE THOUSAND! What an achievement!",
      1234 := "Sequential! 1-2-3-4! 🔢",
      2000 := "Two thousand! The future is here! 🚀",
      3000 := "Three thousand! You're unstoppable! 💪",
      5000 := "FIVE THOUSAND! Legendary counting! 👑",
      8888 := "Quadruple eights! 8️⃣8️⃣8️⃣8️⃣ So satisfying!",
      9000 := "IT'S OVER 9000!!! 💥",
      9999 := "One away from 10k! The tension! 😬",
      10000 := "🎆 TEN THOUSAND! You've reached counting greatness! 🏆",
      11111 := "All ones! 1️⃣1️⃣1️⃣1️⃣1️⃣",
      12345 := "Perfect sequence! 1-2-3-4-5! 🎯",
      15000 := "Fifteen thousand! Halfway to 30k! 🌈",
      20000 := "TWENTY THOUSAND! Double digits! 🎊",
      22222 := "All twos! 2️⃣2️⃣2️⃣2️⃣2️⃣",
      25000 := "Quarter of 100k! You're amazing! 🌟",
      30000 := "THIRTY THOUSAND! Incredible dedication! 💎",
      33333 := "All threes! 3️⃣3️⃣3️⃣3️⃣3️⃣",
      44444 := "All fours! 4️⃣4️⃣4️⃣4️⃣4️⃣",
      50000 := "FIFTY THOUSAND! Half a century of thousands! 🏅",
      55555 := "All fives! 5️⃣5️⃣5️⃣5️⃣5️⃣",
      66666 := "All sixes! 6️⃣6️⃣6️⃣6️⃣6️⃣",
      69420 := "The ultimate meme number! Nice and blazing! 😎🔥",
      77777 := "All sevens! 7️⃣7️⃣7️⃣7️⃣7️⃣ JACKPOT!",
      88888 := "All eights! 8️⃣8️⃣8️⃣8️⃣8️⃣",
      99999 := "All nines! 9️⃣9️⃣9️⃣9️⃣9️⃣",
      100000 := "💯 ONE HUNDRED THOUSAND! LEGENDARY STATUS ACHIEVED! 👑🎆🏆"
    ]

  /** The announcement for a newly accepted number, if it is a milestone. */
  function MilestoneFor(number: int): (announcement: Option<string>)
    ensures announcement.Some? <==> number in Milestones
    ensures announcement.Some? ==> announcement.value == Milestones[number]
  {
    if number in Milestones then Some(Milestones[number]) else None
  }

  /** `data.get('current_count', 0)`. */
  function Count(r: CountingRecord): int {
    r.currentCount.GetOr(0)
  }

  /** The message is one the game looks at: a human's message in the configured channel. */
  predicate Watched(record: Option<CountingRecord>, m: Message) {
    !m.authorIsBot && record.Some? && record.value.channelId == m.channelId
  }

  /**
   * The decision of the message listener for a message, given the guild's record (None when
   * counting is not set up). The checks run in order: digits, then the sequence, then the
   * double count.
   */
  function Judge(record: Option<CountingRecord>, m: Message): (v: Verdict)
    ensures v.Ignored? <==> !Watched(record, m)
    ensures v.NotANumber? <==> Watched(record, m) && !IsDigits(Strip(m.content))
    ensures v.WrongNumber? <==>
      Watched(record, m) && IsDigits(Strip(m.content))
      && DigitsValue(Strip(m.content)) != Count(record.value) + 1
    ensures v.WrongNumber? ==> v.expected == Count(record.value) + 1
    ensures v.CountedTwice? <==>
      Watched(record, m) && IsDigits(Strip(m.content))
      && DigitsValue(Strip(m.content)) == Count(record.value) + 1
      && record.value.lastUserId == Some(m.authorId)
    ensures v.Accepted? ==>
      && v.number == Count(record.value) + 1
      && v.number == DigitsValue(Strip(m.content))
  {
    if !Watched(record, m) then Ignored
    else
      var content := Strip(m.content);
      if !IsDigits(content) then NotANumber
      else
        var number := DigitsValue(content);
        var expected := Count(record.value) + 1;
        if number != expected then WrongNumber(expected)
        else if record.value.lastUserId == Some(m.authorId) then CountedTwice
        else Accepted(number)
  }

  /** The guild's record after the listener has handled `m`: only an accepted number changes it. */
  function Next(record: CountingRecord, m: Message): CountingRecord {
    var v := Judge(Some(record), m);
    if v.Accepted? then record.(currentCount := Some(v.number), lastUserId := Some(m.authorId)) else record
  }

  /** The record after a stream of messages in the guild. */
  function Run(record: CountingRecord, ms: seq<Message>): CountingRecord
    decreases |ms|
  {
    if ms == [] then record else Run(Next(record, ms[0]), ms[1..])
  }

  /** An accepted number and who posted it. */
  datatype Counted = Counted(number: int, author: int)

  /** The accepted numbers of a stream, in order. */
  function AcceptedIn(record: CountingRecord, ms: seq<Message>): seq<Counted>
    decreases |ms|
  {
    if ms == [] then []
    else
      var v := Judge(Some(record), ms[0]);
      (if v.Accepted? then [Counted(v.number, ms[0].authorId)] else []) + AcceptedIn(Next(record, ms[0]), ms[1..])
  }

  /** Over any stream, the count ends as many higher as numbers were accepted, and the last
      counter is the author of the last accepted number (nothing changes when none is). */
  lemma {:induction false} RunCount(record: CountingRecord, ms: seq<Message>)
    ensures var acc := AcceptedIn(record, ms); var after := Run(record, ms);
      && Count(after) == Count(record) + |acc|
      && (|acc| > 0 ==> after.lastUserId == Some(acc[|acc| - 1].author))
      && (acc == [] ==> after == record)
    decreases |ms|
  {
    if ms != [] {
      var v := Judge(Some(record), ms[0]);
      var next := Next(record, ms[0]);
      RunCount(next, ms[1..]);
      var rest := AcceptedIn(next, ms[1..]);
      if v.Accepted? {
        assert AcceptedIn(record, ms) == [Counted(v.number, ms[0].authorId)] + rest;
      } else {
        assert AcceptedIn(record, ms) == rest;
      }
    }
  }

  /** The numbers `acc` carry are c+1, c+2, ... in order. */
  predicate NumberedFrom(acc: seq<Counted>, c: int) {
    forall k :: 0 <= k < |acc| ==> acc[k].number == c + k + 1
  }

  /** The accepted numbers of any stream are count+1, count+2, ... with no gap. */
  lemma {:induction false} AcceptedNumbersConsecutive(record: CountingRecord, ms: seq<Message>)
    ensures NumberedFrom(AcceptedIn(record, ms), Count(record))
    decreases |ms|
  {
    if ms != [] {
      var v := Judge(Some(record), ms[0]);
      var next := Next(record, ms[0]);
      AcceptedNumbersConsecutive(next, ms[1..]);
      var rest := AcceptedIn(next, ms[1..]);
      var acc := AcceptedIn(record, ms);
      if v.Accepted? {
        assert acc == [Counted(v.number, ms[0].authorId)] + rest;
        assert Count(next) == Count(record) + 1;
        forall k | 0 < k < |acc|
          ensures acc[k].number == Count(record) + k + 1
        {
          assert acc[k] == rest[k - 1];
        }
      } else {
        assert acc == rest;
        assert next == record;
      }
    }
  }

  /** Nobody counts twice in a row: consecutive accepted numbers have different authors, and
      the first differs from whoever counted last before the stream. */
  lemma {:induction false} NoDoubleCounting(record: CountingRecord, ms: seq<Message>)
    ensures var acc := AcceptedIn(record, ms);
      && (forall k :: 0 < k < |acc| ==> acc[k].author != acc[k - 1].author)
      && (|acc| > 0 ==> record.lastUserId != Some(acc[0].author))
    decreases |ms|
  {
    if ms != [] {
      var v := Judge(Some(record), ms[0]);
      var next := Next(record, ms[0]);
      NoDoubleCounting(next, ms[1..]);
      var rest := AcceptedIn(next, ms[1..]);
      var acc := AcceptedIn(record, ms);
      if v.Accepted? {
        assert acc == [Counted(v.number, ms[0].authorId)] + rest;
        forall k | 0 < k < |acc|
          ensures acc[k].author != acc[k - 1].author
        {
          if k > 1 {
            assert acc[k] == rest[k - 1] && acc[k - 1] == rest[k - 2];
          }
        }
      } else {
        assert acc == rest;
        assert next == record;
      }
    }
  }

  /** The `counting_channels` collection, one record per guild id. */
  class CountingChannels {
    var records: map<int, CountingRecord>

    constructor ()
      ensures records == map[]
    {
      records := map[];
    }

    /** `/setup_counting`: the channel becomes the guild's counting channel and the count
        starts again from 0 with nobody as last counter. */
    method SetupCounting(guildId: int, channelId: int)
      modifies this
      ensures records == old(records)[guildId := CountingRecord(channelId, Some(0), None)]
    {
      records := records[guildId := CountingRecord(channelId, Some(0), None)];
    }

    /** `/disable_counting`: the guild's record is deleted. */
    method DisableCounting(guildId: int)
      modifies this
      ensures records == old(records) - {guildId}
    {
      records := records - {guildId};
    }

    /** The message listener: judges the message against its guild's record and, when the
        number is accepted, stores it with its author as the guild's new count and announces
        the milestone it reaches, if any. */
    method OnMessage(m: Message) returns (v: Verdict, announcement: Option<string>)
      modifies this
      ensures v == Judge(if m.guildId in old(records) then Some(old(records)[m.guildId]) else None, m)
      ensures v.Accepted? ==>
        && m.guildId in old(records)
        && records == old(records)[m.guildId := Next(old(records)[m.guildId], m)]
        && Count(records[m.guildId]) == Count(old(records)[m.guildId]) + 1
        && records[m.guildId].lastUserId == Some(m.authorId)
      ensures !v.Accepted? ==> records == old(records)
      ensures announcement.Some? <==> v.Accepted? && v.number in Milestones
      ensures announcement.Some? ==> announcement.value == Milestones[v.number]
    {
      var record := if m.guildId in records then Some(records[m.guildId]) else None;
      v := Judge(record, m);
      if v.Accepted? {
        records := records[m.guildId := record.value.(currentCount := Some(v.number), lastUserId := Some(m.authorId))];
        announcement := MilestoneFor(v.number);
      } else {
        announcement := None;
      }
    }
  }
}
