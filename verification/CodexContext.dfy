/**
 Reading a thread under a byte budget, as src/anywhere_computer/codex_context.py does once the app
 server has answered.
 */
module CodexContext {
  import opened Outcomes
  import opened Utf8

  const TEXT_LIMIT := 64 * 1024
  const MAX_MESSAGES := 1000
  const MAX_ID := 128

  /** What the server sent; anything of the wrong type is absent. */
  datatype Part = NotAPart | Part(kind: string, text: Text)
  datatype Item =
    | NotAnItem
    | Item(kind: string, phase: string, text: Text, content: Option<seq<Part>>, id: Option<Text>)
  datatype Turn = NotATurn | Turn(items: Option<seq<Item>>)

  datatype Role = User | Assistant
  datatype Message = Message(role: Role, text: Text, id: Option<Text>)
  datatype Thread = Thread(messages: seq<Message>, truncated: bool)

  /** The text has no UTF-8 encoding. */
  datatype Failure = NotEncodable

  // ----- one message

  function PartText(part: Part): Text {
    if part.Part? && part.kind in {"text", "input_text", "output_text"} then part.text else []
  }

  function PartsText(parts: seq<Part>): Text {
    if parts == [] then [] else PartsText(parts[..|parts| - 1]) + PartText(parts[|parts| - 1])
  }

  function ItemText(item: Item): Text
    requires item.Item?
  {
    if item.text != [] then item.text else if item.content.Some? then PartsText(item.content.value) else []
  }

  method MessageText(item: Item) returns (text: Text)
    requires item.Item?
    ensures text == ItemText(item)
  {
    if item.text != [] { return item.text; }
    if item.content.None? { return []; }
    var parts := item.content.value;
    text := [];
    for k := 0 to |parts|
      invariant text == PartsText(parts[..k])
    {
      assert parts[..k + 1][..k] == parts[..k];
      if parts[k].Part? && parts[k].kind in {"text", "input_text", "output_text"} && parts[k].text != [] {
        text := text + parts[k].text;
      }
    }
    assert parts[..|parts|] == parts;
  }

  /** Up to `limit` bytes of a text, and whether anything was left out. */
  function TruncateUtf8(text: Text, limit: nat): Result<(Text, bool), Failure> {
    if !Encodable(text) then Err(NotEncodable)
    else if |Encode(text)| <= limit then Ok((text, false))
    else Ok((DecodeIgnoring(Encode(text)[..limit]), true))
  }

  /** What is kept is the longest prefix of whole characters that fits; it is cut exactly when the text does not fit. */
  lemma TruncationKeepsMost(text: Text, limit: nat) returns (k: nat)
    requires Encodable(text)
    ensures LongestFit(text, limit, k)
    ensures TruncateUtf8(text, limit) == Ok((text[..k], k < |text|))
  {
    if |Encode(text)| <= limit {
      k := |text|;
      assert text[..k] == text;
    } else {
      k := CutDecodesToLongestFit(text, limit);
      assert text[..|text|] == text;
    }
  }

  // ----- the whole thread

  predicate Eligible(item: Item) {
    item.Item? && item.kind in {"userMessage", "agentMessage"} && item.phase != "analysis" && ItemText(item) != []
  }

  /** An eligible item as a message, nothing left out. */
  function Whole(item: Item): Message
    requires Eligible(item)
  {
    Message(if item.kind == "userMessage" then User else Assistant, ItemText(item),
            if item.id.Some? then Some(if |item.id.value| <= MAX_ID then item.id.value else item.id.value[..MAX_ID])
            else None)
  }

  function EligibleItems(items: seq<Item>): seq<Message> {
    if items == [] then []
    else (if Eligible(items[0]) then [Whole(items[0])] else []) + EligibleItems(items[1..])
  }

  function ItemsOf(turn: Turn): seq<Item> {
    if turn.Turn? && turn.items.Some? then turn.items.value else []
  }

  /** Every eligible message of the turns, in order. */
  function EligibleMessages(turns: seq<Turn>): seq<Message> {
    if turns == [] then [] else EligibleItems(ItemsOf(turns[0])) + EligibleMessages(turns[1..])
  }

  function Prepend(messages: seq<Message>, rest: Result<Thread, Failure>): Result<Thread, Failure> {
    if rest.Err? then rest else Ok(Thread(messages + rest.value.messages, rest.value.truncated))
  }

  /** A further part of a text kind adds its text at the end, and any other part nothing. */
  lemma PartsFollow(parts: seq<Part>, part: Part)
    ensures PartsText(parts + [part])
            == PartsText(parts)
               + if part.Part? && (part.kind == "text" || part.kind == "input_text" || part.kind == "output_text")
                 then part.text else []
  {
    assert (parts + [part])[..|parts|] == parts;
  }

  lemma {:induction false} ItemsFollow(items: seq<Item>, item: Item)
    ensures EligibleItems(items + [item]) == EligibleItems(items) + if Eligible(item) then [Whole(item)] else []
  {
    hide Eligible, Whole;
    if items == [] {
      assert [] + [item] == [item] && [item][1..] == [];
    } else {
      ItemsFollow(items[1..], item);
      assert (items + [item])[1..] == items[1..] + [item];
    }
  }

  lemma {:induction false} TurnsFollow(turns: seq<Turn>, turn: Turn)
    ensures EligibleMessages(turns + [turn]) == EligibleMessages(turns) + EligibleItems(ItemsOf(turn))
  {
    hide EligibleItems;
    if turns == [] {
      assert [] + [turn] == [turn] && [turn][1..] == [];
      assert EligibleMessages([turn]) == EligibleItems(ItemsOf(turn)) + [];
    } else {
      TurnsFollow(turns[1..], turn);
      assert (turns + [turn])[1..] == turns[1..] + [turn];
    }
  }

  /** The message of an item: its direct text or else that of its parts, and the first 128 characters of its id. */
  ghost predicate MessageOf(item: Item, m: Message)
    requires item.Item?
  {
    && m.role == (if item.kind == "userMessage" then User else Assistant)
    && m.text == (if item.text != [] then item.text
                  else if item.content.Some? then PartsText(item.content.value) else [])
    && (m.id.Some? <==> item.id.Some?)
    && (m.id.Some? ==> m.id.value <= item.id.value
                       && |m.id.value| == if |item.id.value| <= 128 then |item.id.value| else 128)
  }

  /**
   A thread's messages are those of its items in order: a further item adds its message at the end
   if it is of the user or the agent, not analysis, and has a text, and else nothing, as does a turn
   without items.
   */
  lemma MessagesFollowItems(turns: seq<Turn>, items: seq<Item>, item: Item)
    ensures EligibleMessages(turns + [NotATurn]) == EligibleMessages(turns + [Turn(None)])
            == EligibleMessages(turns + [Turn(Some([]))]) == EligibleMessages(turns)
    ensures var before := EligibleMessages(turns + [Turn(Some(items))]);
            var after := EligibleMessages(turns + [Turn(Some(items + [item]))]);
            if && item.Item? && (item.kind == "userMessage" || item.kind == "agentMessage")
               && item.phase != "analysis"
               && (item.text != [] || (item.content.Some? && PartsText(item.content.value) != []))
            then exists m :: MessageOf(item, m) && after == before + [m]
            else after == before
  {
    TurnsFollow(turns, NotATurn);
    TurnsFollow(turns, Turn(None));
    TurnsFollow(turns, Turn(Some([])));
    TurnsFollow(turns, Turn(Some(items)));
    TurnsFollow(turns, Turn(Some(items + [item])));
    ItemsFollow(items, item);
    hide EligibleMessages, PartsText;
    if Eligible(item) {
      assert MessageOf(item, Whole(item));
      assert EligibleMessages(turns + [Turn(Some(items + [item]))])
             == EligibleMessages(turns + [Turn(Some(items))]) + [Whole(item)];
    }
  }

  /** What is returned of the eligible messages still to come, with `used` bytes and `count` messages before them. */
  function Collect(eligible: seq<Message>, used: nat, count: nat): Result<Thread, Failure>
    requires used <= TEXT_LIMIT
  {
    if eligible == [] then Ok(Thread([], false))
    else if used == TEXT_LIMIT then Ok(Thread([], true))
    else
      match TruncateUtf8(eligible[0].text, TEXT_LIMIT - used)
      case Err(e) => Err(e)
      case Ok(kept) =>
        var message := eligible[0].(text := kept.0);
        if kept.1 || count + 1 >= MAX_MESSAGES then Ok(Thread([message], true))
        else Prepend([message], Collect(eligible[1..], used + |Encode(kept.0)|, count + 1))
  }

  lemma TurnStep(turns: seq<Turn>, t: nat)
    requires t < |turns|
    ensures EligibleMessages(turns[t..]) == EligibleItems(ItemsOf(turns[t])) + EligibleMessages(turns[t + 1..])
    ensures turns[t].NotATurn? || turns[t].items.None?
            ==> EligibleMessages(turns[t..]) == EligibleMessages(turns[t + 1..])
  {
    assert turns[t..][1..] == turns[t + 1..];
    assert [] + EligibleMessages(turns[t + 1..]) == EligibleMessages(turns[t + 1..]);
  }

  lemma ItemStep(items: seq<Item>, i: nat, later: seq<Message>)
    requires i < |items|
    ensures EligibleItems(items[i..]) + later
            == if Eligible(items[i]) then [Whole(items[i])] + (EligibleItems(items[i + 1..]) + later)
               else EligibleItems(items[i + 1..]) + later
  {
    hide Eligible, Whole;
    assert items[i..][1..] == items[i + 1..];
    assert [] + EligibleItems(items[i + 1..]) == EligibleItems(items[i + 1..]);
  }

  lemma ItemsEnd(items: seq<Item>, later: seq<Message>)
    ensures EligibleItems(items[|items|..]) + later == later
  {
  }

  lemma TurnsEnd(turns: seq<Turn>, messages: seq<Message>, total: nat)
    requires total <= TEXT_LIMIT
    ensures Prepend(messages, Collect(EligibleMessages(turns[|turns|..]), total, |messages|))
            == Ok(Thread(messages, false))
  {
    assert messages + [] == messages;
  }

  lemma PrependEnds(messages: seq<Message>, m: Message)
    ensures Prepend(messages, Ok(Thread([], true))) == Ok(Thread(messages, true))
    ensures Prepend(messages, Ok(Thread([m], true))) == Ok(Thread(messages + [m], true))
  {
    assert messages + [] == messages;
  }

  lemma PrependFails(messages: seq<Message>, e: Failure)
    ensures Prepend(messages, Err(e)) == Err(e)
  {
  }

  lemma EligibleMeans(item: Item)
    ensures Eligible(item) <==>
              && item.Item? && item.kind in {"userMessage", "agentMessage"} && item.phase != "analysis"
              && ItemText(item) != []
  {
  }

  lemma WholeMeans(item: Item)
    requires Eligible(item)
    ensures Whole(item).text == ItemText(item)
            && Whole(item).role == (if item.kind == "userMessage" then User else Assistant)
    ensures Whole(item).id
            == if item.id.None? then None
               else Some(if |item.id.value| <= MAX_ID then item.id.value else item.id.value[..MAX_ID])
  {
  }

  lemma PrependNothing(r: Result<Thread, Failure>)
    ensures Prepend([], r) == r
  {
    if r.Ok? { assert [] + r.value.messages == r.value.messages; }
  }

  lemma PrependTwice(messages: seq<Message>, m: Message, r: Result<Thread, Failure>)
    ensures Prepend(messages, Prepend([m], r)) == Prepend(messages + [m], r)
  {
    if r.Ok? { assert messages + ([m] + r.value.messages) == messages + [m] + r.value.messages; }
  }

  lemma TruncationFits(text: Text, limit: nat)
    ensures TruncateUtf8(text, limit).Ok? ==> |Encode(TruncateUtf8(text, limit).value.0)| <= limit
  {
    if Encodable(text) { var k := TruncationKeepsMost(text, limit); }
  }

  lemma CollectOne(m: Message, rest: seq<Message>, used: nat, count: nat)
    requires used <= TEXT_LIMIT
    ensures var r := Collect([m] + rest, used, count);
            if used == TEXT_LIMIT then r == Ok(Thread([], true))
            else
              var kept := TruncateUtf8(m.text, TEXT_LIMIT - used);
              if kept.Err? then r == Err(kept.error)
              else
                var message := m.(text := kept.value.0);
                used + |Encode(kept.value.0)| <= TEXT_LIMIT
                && if kept.value.1 || count + 1 >= MAX_MESSAGES then r == Ok(Thread([message], true))
                   else r == Prepend([message], Collect(rest, used + |Encode(kept.value.0)|, count + 1))
  {
    assert ([m] + rest)[1..] == rest;
    TruncationFits(m.text, TEXT_LIMIT - used);
  }

  method ReadThread(turns: seq<Turn>) returns (r: Result<Thread, Failure>)
    ensures r == Collect(EligibleMessages(turns), 0, 0)
  {
    hide TruncateUtf8, Eligible, Whole, Collect, Prepend, EligibleItems, EligibleMessages, Encode, ItemText;
    var messages: seq<Message> := [];
    var total: nat := 0;
    ghost var all := EligibleMessages(turns);
    PrependNothing(Collect(all, 0, 0));
    assert turns[0..] == turns;
    for t := 0 to |turns|
      invariant total <= TEXT_LIMIT
      invariant Collect(all, 0, 0) == Prepend(messages, Collect(EligibleMessages(turns[t..]), total, |messages|))
    {
      TurnStep(turns, t);
      if turns[t].NotATurn? || turns[t].items.None? { continue; }
      var items := turns[t].items.value;
      ghost var later := EligibleMessages(turns[t + 1..]);
      assert items[0..] == items;
      for i := 0 to |items|
        invariant total <= TEXT_LIMIT
        invariant Collect(all, 0, 0) == Prepend(messages, Collect(EligibleItems(items[i..]) + later, total, |messages|))
      {
        var item := items[i];
        ItemStep(items, i, later);
        EligibleMeans(item);
        if item.NotAnItem? || item.kind !in {"userMessage", "agentMessage"} || item.phase == "analysis" { continue; }
        var text := MessageText(item);
        if text == [] { continue; }
        ghost var rest := EligibleItems(items[i + 1..]) + later;
        CollectOne(Whole(item), rest, total, |messages|);
        WholeMeans(item);
        PrependEnds(messages, Whole(item).(text := text));
        if total >= TEXT_LIMIT { return Ok(Thread(messages, true)); }
        var kept := TruncateUtf8(text, TEXT_LIMIT - total);
        if kept.Err? {
          PrependFails(messages, kept.error);
          return Err(kept.error);
        }
        var truncated := kept.value.1;
        var id := if item.id.None? then None
                  else Some(if |item.id.value| <= MAX_ID then item.id.value else item.id.value[..MAX_ID]);
        var entry := Message(if item.kind == "userMessage" then User else Assistant, kept.value.0, id);
        PrependEnds(messages, entry);
        PrependTwice(messages, entry, Collect(rest, total + |Encode(kept.value.0)|, |messages| + 1));
        messages := messages + [entry];
        total := total + |Encode(kept.value.0)|;
        if |messages| >= MAX_MESSAGES { truncated := true; }
        if truncated { return Ok(Thread(messages, true)); }
      }
      ItemsEnd(items, later);
    }
    TurnsEnd(turns, messages, total);
    r := Ok(Thread(messages, false));
  }

  // ----- what is returned

  /** The encoded size of the messages together. */
  function Size(messages: seq<Message>): nat {
    if messages == [] then 0 else Size(messages[..|messages| - 1]) + |Encode(messages[|messages| - 1].text)|
  }

  lemma {:induction false} SizeCons(m: Message, rest: seq<Message>)
    ensures Size([m] + rest) == |Encode(m.text)| + Size(rest)
  {
    hide Encode;
    if rest == [] {
      assert [m] + rest == [m] && [m][..0] == [];
      assert Size([m]) == Size([]) + |Encode(m.text)|;
    } else {
      var n := |rest| - 1;
      SizeCons(m, rest[..n]);
      assert ([m] + rest)[..|[m] + rest| - 1] == [m] + rest[..n];
    }
  }

  /** The message with as much of its text as fits the room, in whole characters. */
  ghost predicate CutTo(kept: Message, whole: Message, room: nat) {
    exists k: nat :: LongestFit(whole.text, room, k) && kept == whole.(text := whole.text[..k])
  }

  /** A prefix of the eligible messages, all whole but the last, which holds what still fits. */
  ghost predicate PrefixOf(messages: seq<Message>, eligible: seq<Message>, used: nat) {
    && |messages| <= |eligible|
    && used + Size(messages) <= TEXT_LIMIT
    && (messages != [] ==>
          var n := |messages| - 1;
          && messages[..n] == eligible[..n] && used + Size(messages[..n]) <= TEXT_LIMIT
          && CutTo(messages[n], eligible[n], TEXT_LIMIT - used - Size(messages[..n])))
  }

  /** Where messages are missing, the budget or the count is spent or the last message was cut. */
  ghost predicate StoppedFor(messages: seq<Message>, eligible: seq<Message>, used: nat, count: nat) {
    |messages| < |eligible| ==>
      || used + Size(messages) == TEXT_LIMIT
      || count + |messages| == MAX_MESSAGES
      || (messages != [] && messages[|messages| - 1] != eligible[|messages| - 1])
  }

  ghost predicate Accounted(thread: Thread, eligible: seq<Message>, used: nat, count: nat) {
    && PrefixOf(thread.messages, eligible, used)
    && count + |thread.messages| <= MAX_MESSAGES
    && StoppedFor(thread.messages, eligible, used, count)
    && (thread.truncated <==> thread.messages != eligible || count + |thread.messages| == MAX_MESSAGES)
  }

  lemma SingleAccounted(kept: Message, eligible: seq<Message>, used: nat, count: nat, cut: bool)
    requires eligible != [] && used <= TEXT_LIMIT && count < MAX_MESSAGES
    requires CutTo(kept, eligible[0], TEXT_LIMIT - used) && used + |Encode(kept.text)| <= TEXT_LIMIT
    requires cut <==> kept != eligible[0]
    requires cut || count + 1 == MAX_MESSAGES
    ensures Accounted(Thread([kept], true), eligible, used, count)
  {
    hide Encode, CutTo;
    SizeCons(kept, []);
    assert [kept] + [] == [kept] && [kept][..0] == [] == eligible[..0];
    assert Size([]) == 0;
  }

  lemma MoreAccounted(m: Message, rest: Thread, eligible: seq<Message>, used: nat, count: nat)
    requires used + |Encode(m.text)| <= TEXT_LIMIT && CutTo(m, m, TEXT_LIMIT - used)
    requires Accounted(rest, eligible, used + |Encode(m.text)|, count + 1)
    ensures Accounted(Thread([m] + rest.messages, rest.truncated), [m] + eligible, used, count)
  {
    hide Encode, CutTo;
    var messages, all := [m] + rest.messages, [m] + eligible;
    SizeCons(m, rest.messages);
    if rest.messages == [] {
      assert messages == [m] && [m][..0] == [] == all[..0];
      assert Size([]) == 0;
    } else {
      var n := |rest.messages| - 1;
      assert messages[..n + 1] == [m] + rest.messages[..n] && all[..n + 1] == [m] + eligible[..n];
      SizeCons(m, rest.messages[..n]);
    }
    if messages == all { assert rest.messages == messages[1..] == all[1..] == eligible; }
  }

  lemma NothingAccounted(eligible: seq<Message>, used: nat, count: nat)
    requires used <= TEXT_LIMIT && count < MAX_MESSAGES && (eligible == [] || used == TEXT_LIMIT)
    ensures Accounted(Thread([], eligible != []), eligible, used, count)
  {
  }

  lemma KeptMessage(m: Message, room: nat) returns (kept: Message)
    requires Encodable(m.text)
    ensures TruncateUtf8(m.text, room) == Ok((kept.text, kept != m)) && kept == m.(text := kept.text)
    ensures CutTo(kept, m, room) && |Encode(kept.text)| <= room
  {
    hide Encode, TruncateUtf8;
    var k := TruncationKeepsMost(m.text, room);
    TruncationFits(m.text, room);
    assert m.text[..|m.text|] == m.text;
    kept := m.(text := m.text[..k]);
  }

  lemma EncodableIfKept(text: Text, limit: nat)
    requires TruncateUtf8(text, limit).Ok?
    ensures Encodable(text)
  {
  }

  /**
   At most 65536 bytes and 1000 messages, a prefix of the eligible ones with only the last cut;
   nothing is left out without a reason, and `truncated` is set exactly when something was left
   out or a thousand messages were returned.
   */
  lemma {:induction false} CollectAccounts(eligible: seq<Message>, used: nat, count: nat)
    requires used <= TEXT_LIMIT && count < MAX_MESSAGES && Collect(eligible, used, count).Ok?
    ensures Accounted(Collect(eligible, used, count).value, eligible, used, count)
  {
    hide Encode, CutTo, Accounted, TruncateUtf8;
    if eligible == [] || used == TEXT_LIMIT {
      NothingAccounted(eligible, used, count);
    } else {
      var m, rest := eligible[0], eligible[1..];
      assert [m] + rest == eligible;
      CollectOne(m, rest, used, count);
      hide Collect;
      EncodableIfKept(m.text, TEXT_LIMIT - used);
      var kept := KeptMessage(m, TEXT_LIMIT - used);
      if kept != m || count + 1 >= MAX_MESSAGES {
        SingleAccounted(kept, eligible, used, count, kept != m);
      } else {
        CollectAccounts(rest, used + |Encode(m.text)|, count + 1);
        MoreAccounted(m, Collect(rest, used + |Encode(m.text)|, count + 1).value, rest, used, count);
      }
    }
  }

  lemma EncodableIsKept(text: Text, limit: nat)
    requires Encodable(text)
    ensures TruncateUtf8(text, limit).Ok?
  {
  }

  /** Reading fails only over a message without an encoding. */
  lemma {:induction false} EncodableThreadIsRead(eligible: seq<Message>, used: nat, count: nat)
    requires used <= TEXT_LIMIT && forall m <- eligible :: Encodable(m.text)
    ensures Collect(eligible, used, count).Ok?
  {
    if eligible != [] && used < TEXT_LIMIT {
      hide Encode, Encodable, LongestFit;
      var m := eligible[0];
      assert m in eligible;
      EncodableIsKept(m.text, TEXT_LIMIT - used);
      TruncationFits(m.text, TEXT_LIMIT - used);
      EncodableThreadIsRead(eligible[1..], used + |Encode(TruncateUtf8(m.text, TEXT_LIMIT - used).value.0)|, count + 1);
    }
  }

  /** Without `truncated`, everything eligible was returned, whole. */
  lemma UntruncatedIsComplete(turns: seq<Turn>)
    requires var r := Collect(EligibleMessages(turns), 0, 0); r.Ok? && !r.value.truncated
    ensures Collect(EligibleMessages(turns), 0, 0).value.messages == EligibleMessages(turns)
    ensures Size(EligibleMessages(turns)) <= TEXT_LIMIT && |EligibleMessages(turns)| < MAX_MESSAGES
  {
    hide Collect, Size;
    CollectAccounts(EligibleMessages(turns), 0, 0);
  }

  // ----- the flag and failure, read off the messages to come

  lemma EncodingHasBytes(text: Text)
    requires text != []
    ensures Encode(text) != []
  {
  }

  lemma CutExactly(text: Text, limit: nat)
    requires Encodable(text)
    ensures TruncateUtf8(text, limit).Ok? && (TruncateUtf8(text, limit).value.1 <==> |Encode(text)| > limit)
  {
  }

  /** Every message has a text, and the text an encoding. */
  ghost predicate Readable(eligible: seq<Message>) {
    forall m <- eligible :: m.text != [] && Encodable(m.text)
  }

  lemma ReadableParts(eligible: seq<Message>)
    requires eligible != [] && Readable(eligible)
    ensures eligible[0].text != [] && Encodable(eligible[0].text) && Readable(eligible[1..])
  {
    assert eligible[0] in eligible;
  }

  lemma SameAfter(m: Message, messages: seq<Message>, rest: seq<Message>)
    ensures [m] + messages == [m] + rest <==> messages == rest
  {
    assert ([m] + messages)[1..] == messages && ([m] + rest)[1..] == rest;
  }

  /** One message with an encoding: taken whole if it fits, and the last if it does not or is the thousandth. */
  lemma FlagStep(m: Message, rest: seq<Message>, used: nat, count: nat) returns (kept: Message)
    requires used < TEXT_LIMIT && Encodable(m.text)
    ensures kept == m <==> used + |Encode(m.text)| <= TEXT_LIMIT
    ensures Collect([m] + rest, used, count)
            == if kept != m || count + 1 >= MAX_MESSAGES then Ok(Thread([kept], true))
               else Prepend([m], Collect(rest, used + |Encode(m.text)|, count + 1))
  {
    hide Encode, Encodable, TruncateUtf8, CutTo;
    CollectOne(m, rest, used, count);
    hide Collect;
    CutExactly(m.text, TEXT_LIMIT - used);
    kept := KeptMessage(m, TEXT_LIMIT - used);
  }

  /**
   `truncated` is set exactly when the messages to come exceed the bytes, or reach a thousand;
   everything is returned exactly when they do not exceed either.
   */
  lemma {:induction false} FlagExactly(eligible: seq<Message>, used: nat, count: nat)
    requires used <= TEXT_LIMIT && count < MAX_MESSAGES && Readable(eligible)
    ensures var r := Collect(eligible, used, count);
            && r.Ok?
            && (r.value.truncated <==> used + Size(eligible) > TEXT_LIMIT || count + |eligible| >= MAX_MESSAGES)
            && (r.value.messages == eligible
                <==> used + Size(eligible) <= TEXT_LIMIT && count + |eligible| <= MAX_MESSAGES)
  {
    hide Encode, Encodable, TruncateUtf8, CutTo, Readable;
    if eligible == [] {
    } else {
      var m, rest := eligible[0], eligible[1..];
      assert [m] + rest == eligible;
      ReadableParts(eligible);
      SizeCons(m, rest);
      EncodingHasBytes(m.text);
      if used < TEXT_LIMIT {
        var kept := FlagStep(m, rest, used, count);
        hide Collect, Size;
        if kept == m && count + 1 < MAX_MESSAGES {
          FlagExactly(rest, used + |Encode(m.text)|, count + 1);
          SameAfter(m, Collect(rest, used + |Encode(m.text)|, count + 1).value.messages, rest);
        } else {
          SameAfter(m, [], rest);
        }
      }
    }
  }

  /** The k-th message is the first without an encoding, and is reached with room and count to spare. */
  ghost predicate FailsAt(eligible: seq<Message>, used: nat, count: nat, k: nat) {
    && k < |eligible| && !Encodable(eligible[k].text)
    && (forall j :: 0 <= j < k ==> Encodable(eligible[j].text))
    && used + Size(eligible[..k]) < TEXT_LIMIT && count + k < MAX_MESSAGES
  }

  ghost predicate FailsSomewhere(eligible: seq<Message>, used: nat, count: nat) {
    exists k: nat :: FailsAt(eligible, used, count, k)
  }

  lemma NoneFails(eligible: seq<Message>, used: nat, count: nat)
    requires eligible == [] || used >= TEXT_LIMIT || count >= MAX_MESSAGES
    ensures !FailsSomewhere(eligible, used, count)
  {
  }

  lemma FailsLater(m: Message, rest: seq<Message>, used: nat, count: nat, k: nat)
    requires Encodable(m.text)
    ensures FailsAt([m] + rest, used, count, k + 1) <==> FailsAt(rest, used + |Encode(m.text)|, count + 1, k)
  {
    hide Encode, Encodable;
    if k < |rest| {
      assert ([m] + rest)[..k + 1] == [m] + rest[..k];
      SizeCons(m, rest[..k]);
      if FailsAt([m] + rest, used, count, k + 1) {
        forall j | 0 <= j < k ensures Encodable(rest[j].text) { assert ([m] + rest)[j + 1] == rest[j]; }
      }
    }
  }

  lemma FailsFirst(m: Message, rest: seq<Message>, used: nat, count: nat)
    requires used < TEXT_LIMIT && count < MAX_MESSAGES
    ensures FailsAt([m] + rest, used, count, 0) <==> !Encodable(m.text)
  {
    assert ([m] + rest)[..0] == [];
  }

  lemma FailureStep(m: Message, rest: seq<Message>, used: nat, count: nat)
    requires used < TEXT_LIMIT && count < MAX_MESSAGES
    ensures FailsSomewhere([m] + rest, used, count)
            <==> !Encodable(m.text) || FailsSomewhere(rest, used + |Encode(m.text)|, count + 1)
  {
    FailsFirst(m, rest, used, count);
    var after := used + |Encode(m.text)|;
    if Encodable(m.text) {
      if k: nat :| FailsAt([m] + rest, used, count, k) {
        hide FailsAt, Encode, Encodable;
        FailsLater(m, rest, used, count, k - 1);
      }
      var next := count + 1;
      if k: nat :| FailsAt(rest, after, next, k) {
        hide FailsAt, Encode, Encodable;
        FailsLater(m, rest, used, count, k);
      }
    }
  }

  lemma UnencodableFails(text: Text, limit: nat)
    requires !Encodable(text)
    ensures TruncateUtf8(text, limit).Err?
  {
  }

  /** Reading fails exactly at a message without an encoding that it still gets to. */
  lemma {:induction false} ReadingFailsExactly(eligible: seq<Message>, used: nat, count: nat)
    requires used <= TEXT_LIMIT && count < MAX_MESSAGES
    ensures Collect(eligible, used, count).Err? <==> FailsSomewhere(eligible, used, count)
  {
    hide Encode, Encodable, TruncateUtf8, CutTo, FailsSomewhere;
    if eligible == [] || used == TEXT_LIMIT {
      NoneFails(eligible, used, count);
    } else {
      var m, rest := eligible[0], eligible[1..];
      assert [m] + rest == eligible;
      CollectOne(m, rest, used, count);
      hide Collect;
      FailureStep(m, rest, used, count);
      if Encodable(m.text) {
        CutExactly(m.text, TEXT_LIMIT - used);
        var kept := KeptMessage(m, TEXT_LIMIT - used);
        var after := used + |Encode(m.text)|;
        if kept == m && count + 1 < MAX_MESSAGES {
          ReadingFailsExactly(rest, after, count + 1);
        } else {
          NoneFails(rest, after, count + 1);
        }
      } else {
        UnencodableFails(m.text, TEXT_LIMIT - used);
      }
    }
  }

  lemma {:induction false} ItemsHaveTexts(items: seq<Item>)
    ensures forall m <- EligibleItems(items) :: m.text != []
  {
    if items != [] {
      hide ItemText;
      ItemsHaveTexts(items[1..]);
    }
  }

  lemma {:induction false} MessagesHaveTexts(turns: seq<Turn>)
    ensures forall m <- EligibleMessages(turns) :: m.text != []
  {
    if turns != [] {
      ItemsHaveTexts(ItemsOf(turns[0]));
      MessagesHaveTexts(turns[1..]);
    }
  }

  /**
   Of a thread whose messages all have encodings: `truncated` is set exactly when they exceed the
   bytes or reach a thousand, and says so for nothing exactly when a thousand of them fit.
   */
  lemma ThreadFlag(turns: seq<Turn>)
    requires forall m <- EligibleMessages(turns) :: Encodable(m.text)
    ensures var all := EligibleMessages(turns);
            var r := Collect(all, 0, 0);
            && r.Ok?
            && (r.value.truncated <==> Size(all) > TEXT_LIMIT || |all| >= MAX_MESSAGES)
            && (r.value.messages == all <==> Size(all) <= TEXT_LIMIT && |all| <= MAX_MESSAGES)
            && (r.value.truncated && r.value.messages == all <==> Size(all) <= TEXT_LIMIT && |all| == MAX_MESSAGES)
  {
    hide Encodable, EligibleMessages, Collect, Size;
    MessagesHaveTexts(turns);
    FlagExactly(EligibleMessages(turns), 0, 0);
  }

  const LETTER: Text := [97]

  /** So many messages of one letter. */
  function Letters(n: nat): seq<Item> {
    if n == 0 then [] else [Item("userMessage", "", LETTER, None, None)] + Letters(n - 1)
  }

  lemma OneLetter()
    ensures |Encode(LETTER)| == 1 && Encodable(LETTER)
  {
    assert LETTER[1..] == [];
  }

  lemma LetterIsEligible(rest: seq<Item>)
    ensures EligibleItems([Item("userMessage", "", LETTER, None, None)] + rest)
            == [Message(User, LETTER, None)] + EligibleItems(rest)
  {
    var letter := Item("userMessage", "", LETTER, None, None);
    assert ([letter] + rest)[1..] == rest && Eligible(letter);
  }

  const SHORT := Message(User, LETTER, None)

  function Shorts(n: nat): (r: seq<Message>)
    ensures |r| == n && forall i :: 0 <= i < n ==> r[i] == SHORT
  {
    if n == 0 then [] else [SHORT] + Shorts(n - 1)
  }

  lemma {:induction false} ShortsFit(n: nat)
    ensures Size(Shorts(n)) == n
  {
    if n == 0 {
    } else {
      hide Encode;
      ShortsFit(n - 1);
      SizeCons(SHORT, Shorts(n - 1));
      OneLetter();
    }
  }

  lemma {:induction false} LettersAreShort(n: nat)
    ensures EligibleItems(Letters(n)) == Shorts(n)
  {
    if n == 0 {
    } else {
      hide EligibleItems;
      LettersAreShort(n - 1);
      LetterIsEligible(Letters(n - 1));
    }
  }

  /** A thread of a thousand one-letter messages is returned whole, and reported as truncated. */
  lemma ThousandReportedTruncated()
    ensures var all := EligibleMessages([Turn(Some(Letters(MAX_MESSAGES)))]);
            && |all| == MAX_MESSAGES && Size(all) == MAX_MESSAGES
            && Collect(all, 0, 0) == Ok(Thread(all, true))
  {
    hide Letters, Shorts, EligibleItems, Size, Collect;
    var turns := [Turn(Some(Letters(MAX_MESSAGES)))];
    var items := EligibleItems(Letters(MAX_MESSAGES));
    assert turns[1..] == [] && EligibleMessages(turns) == items + [] == items;
    LettersAreShort(MAX_MESSAGES);
    ShortsFit(MAX_MESSAGES);
    OneLetter();
    ThreadFlag(turns);
  }
}
