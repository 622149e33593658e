/** The parent-message templates: a category and a small form give the text a
    teacher copies into a messenger. */
module Messages {
  import JsText

  /** The form; an empty `room` or `additionalInfo` is falsy like an absent one. */
  datatype MessageForm = MessageForm(date: string, time: string, room: string, additionalInfo: string)

  const Categories: seq<string> := ["meeting", "saturday", "money", "congrats"]

  const Greeting: string := "Құрметті ата-аналар!"
  const Closing: string := "Құрметпен, мектеп әкімшілігі."

  /** `value || fallback`. */
  function Or(value: string, fallback: string): string
  {
    if value != "" then value else fallback
  }

  /** The stand-alone room line of the money and congratulation messages. */
  function RoomLine(room: string): string
  {
    if room != "" then "Кабинет: " + room + "." else ""
  }

  /** The texts used when `additionalInfo` is left empty. */
  const MeetingInfo: string := "Келуді сұраймыз."
  const SaturdayInfo: string := "Сабақ басталу уақыты: 09:00"
  const MoneyPurpose: string := "мәктәптік қажеттіліктер үшін"
  const CongratsWish: string := "Сізбен бірге құттықтаймыз!"
  const CongratsEvent: string := "арнайы оқиға"

  const MoneySentence: string := " ақша жинау жүргізіледі."
  const EventSentence: string := " өтеді."

  const MeetingSentence: string := " мектепте ата-аналар жиналысы өтеді."

  const SaturdayFirst: string := " күні сенбілік сабақ өтеді."
  const SaturdaySecond: string := " Оқушылардың сабаққа келуін сұраймыз."

  /** The sentence that names the room in a meeting notice, appended to the
      date line when there is a room. */
  function RoomSentence(room: string): string
  {
    if room != "" then " Кабинет: " + room + "." else ""
  }

  /** The lines of a notice with two paragraphs: the opening line, the
      paragraphs and the sign-off, with blank lines between them. */
  function TwoParagraphs(opener: string, first: string, second: string): (r: seq<string>)
    ensures |r| == 7 && r[0] == opener && r[2] == first && r[4] == second && r[6] == Closing
    ensures forall i :: 0 <= i < |r| && i % 2 == 1 ==> r[i] == ""
  {
    [opener, "", first, "", second, "", Closing]
  }

  /** The lines of a notice with three paragraphs. */
  function ThreeParagraphs(opener: string, first: string, second: string, third: string): (r: seq<string>)
    ensures |r| == 9 && r[0] == opener && r[2] == first && r[4] == second && r[6] == third && r[8] == Closing
    ensures forall i :: 0 <= i < |r| && i % 2 == 1 ==> r[i] == ""
  {
    [opener, "", first, "", second, "", third, "", Closing]
  }

  /** The lines of the message (the template literal split at its line
      breaks); none for an unknown category. Every known message opens with
      the greeting (the meeting notice with a trailing space), leaves blank
      lines between paragraphs and closes with the administration's sign-off;
      the date leads the first paragraph, except in a congratulation where it
      leads the second. */
  function MessageLines(category: string, d: MessageForm): (r: seq<string>)
    ensures category !in Categories ==> r == []
    ensures category in Categories ==> |r| >= 7 && JsText.StartsWith(r[0], Greeting) && r[|r| - 1] == Closing
    ensures category in Categories ==> forall i :: 0 <= i < |r| && i % 2 == 1 ==> r[i] == ""
    ensures category in {"meeting", "saturday", "money"} ==> JsText.StartsWith(r[2], d.date)
    ensures category == "congrats" ==> |r| == 9 && JsText.StartsWith(r[4], d.date)
  {
    if category == "meeting" then
      var opener := Greeting + " ";
      var first := d.date + (" күні сағат " + d.time + MeetingSentence + RoomSentence(d.room));
      JsText.StartsWithConcat(Greeting, " ");
      JsText.StartsWithConcat(d.date, " күні сағат " + d.time + MeetingSentence + RoomSentence(d.room));
      TwoParagraphs(opener, first, Or(d.additionalInfo, MeetingInfo))
    else if category == "saturday" then
      JsText.StartsWithConcat(Greeting, "");
      JsText.StartsWithConcat(d.date, SaturdayFirst + SaturdaySecond);
      TwoParagraphs(Greeting, d.date + (SaturdayFirst + SaturdaySecond), Or(d.additionalInfo, SaturdayInfo))
    else if category == "money" then
      var tail := " күні " + Or(d.additionalInfo, MoneyPurpose) + MoneySentence;
      JsText.StartsWithConcat(Greeting, "");
      JsText.StartsWithConcat(d.date, tail);
      TwoParagraphs(Greeting, d.date + tail, RoomLine(d.room))
    else if category == "congrats" then
      var tail := " күні " + Or(d.additionalInfo, CongratsEvent) + EventSentence;
      JsText.StartsWithConcat(Greeting, "");
      JsText.StartsWithConcat(d.date, tail);
      ThreeParagraphs(Greeting, Or(d.additionalInfo, CongratsWish), d.date + tail, RoomLine(d.room))
    else []
  }

  /** A meeting notice's last paragraph is the additional information, or a
      request to come when it is left empty. */
  lemma MeetingInfoOrDefault(d: MessageForm)
    ensures MessageLines("meeting", d)[4] == (if d.additionalInfo != "" then d.additionalInfo else MeetingInfo)
  {
  }

  /** A Saturday notice's last paragraph is the additional information, or the
      start time when it is left empty. */
  lemma SaturdayInfoOrDefault(d: MessageForm)
    ensures MessageLines("saturday", d)[4] == (if d.additionalInfo != "" then d.additionalInfo else SaturdayInfo)
  {
  }

  /** A collection notice names the additional information as its purpose,
      or school needs when it is left empty. */
  lemma MoneyPurposeOrDefault(d: MessageForm)
    ensures var purpose := if d.additionalInfo != "" then d.additionalInfo else MoneyPurpose;
      MessageLines("money", d)[2] == d.date + " күні " + purpose + MoneySentence
  {
  }

  /** A congratulation opens with the additional information, or a general
      wish when it is left empty, and names it as the event, or a special
      event when it is left empty. */
  lemma CongratsInfoOrDefault(d: MessageForm)
    ensures MessageLines("congrats", d)[2] == (if d.additionalInfo != "" then d.additionalInfo else CongratsWish)
    ensures var event := if d.additionalInfo != "" then d.additionalInfo else CongratsEvent;
      MessageLines("congrats", d)[4] == d.date + " күні " + event + EventSentence
  {
  }

  /** `generateMessage`: the lines joined with line breaks; the empty string for
      an unknown category. A known category's message begins with the
      greeting, ends with the sign-off and mentions the date. */
  function GenerateMessage(category: string, d: MessageForm): (r: string)
    ensures category !in Categories ==> r == ""
    ensures category in Categories ==>
      JsText.StartsWith(r, Greeting) && JsText.EndsWith(r, Closing) && JsText.Contains(r, d.date)
  {
    var lines := MessageLines(category, d);
    var r := JsText.Join(lines, "\n");
    if category in Categories then
      JsText.JoinEnds(lines, "\n");
      assert r[..|Greeting|] == lines[0][..|Greeting|];
      var k := if category == "congrats" then 4 else 2;
      JsText.JoinContainsPart(lines, "\n", k);
      JsText.ContainsPrefixOf(r, lines[k], d.date);
      r
    else r
  }

  /** When no field contains a line break the message is exactly its lines:
      splitting it at the line breaks gives them back. */
  lemma MessageIsItsLines(category: string, d: MessageForm)
    requires category in Categories
    requires FieldsUnbroken(d)
    ensures JsText.Split(GenerateMessage(category, d), '\n') == MessageLines(category, d)
  {
    var lines := MessageLines(category, d);
    LinesUnbroken(category, d);
    JsText.SplitJoin(lines, '\n');
  }

  /** No line of a known message breaks when no field does. */
  predicate Unbroken(lines: seq<string>)
  {
    forall i :: 0 <= i < |lines| ==> '\n' !in lines[i]
  }

  predicate FieldsUnbroken(d: MessageForm)
  {
    '\n' !in d.date && '\n' !in d.time && '\n' !in d.room && '\n' !in d.additionalInfo
  }

  lemma LinesUnbroken(category: string, d: MessageForm)
    requires category in Categories && FieldsUnbroken(d)
    ensures Unbroken(MessageLines(category, d))
  {
    if category == "meeting" {
      MeetingUnbroken(d);
    } else if category == "saturday" {
      SaturdayUnbroken(d);
    } else if category == "money" {
      MoneyUnbroken(d);
    } else {
      CongratsUnbroken(d);
    }
  }

  // The literal pieces of the messages hold no line break.

  lemma MeetingLiterals()
    ensures '\n' !in Greeting + " "
    ensures '\n' !in " күні сағат "
    ensures '\n' !in MeetingSentence
    ensures '\n' !in "Келуді сұраймыз."
  {
  }

  lemma SaturdayLiterals()
    ensures '\n' !in SaturdayFirst
    ensures '\n' !in SaturdaySecond
    ensures '\n' !in "Сабақ басталу уақыты: 09:00"
  {
  }

  lemma MoneyLiterals()
    ensures '\n' !in " күні "
    ensures '\n' !in "мәктәптік қажеттіліктер үшін"
    ensures '\n' !in " ақша жинау жүргізіледі."
  {
  }

  lemma CongratsLiterals()
    ensures '\n' !in "Сізбен бірге құттықтаймыз!"
    ensures '\n' !in "арнайы оқиға"
    ensures '\n' !in " өтеді."
  {
  }

  lemma CommonLiterals()
    ensures '\n' !in Greeting
    ensures '\n' !in Closing
  {
  }

  lemma MeetingUnbroken(d: MessageForm)
    requires FieldsUnbroken(d)
    ensures Unbroken(MessageLines("meeting", d))
  {
    CommonLiterals();
    MeetingLiterals();
    assert '\n' !in RoomSentence(d.room);
  }

  lemma SaturdayUnbroken(d: MessageForm)
    requires FieldsUnbroken(d)
    ensures Unbroken(MessageLines("saturday", d))
  {
    CommonLiterals();
    SaturdayLiterals();
  }

  lemma MoneyUnbroken(d: MessageForm)
    requires FieldsUnbroken(d)
    ensures Unbroken(MessageLines("money", d))
  {
    CommonLiterals();
    MoneyLiterals();
    assert '\n' !in RoomLine(d.room);
  }

  lemma CongratsUnbroken(d: MessageForm)
    requires FieldsUnbroken(d)
    ensures Unbroken(MessageLines("congrats", d))
  {
    CommonLiterals();
    CongratsLiterals();
    MoneyLiterals();
    assert '\n' !in RoomLine(d.room);
  }

  /** The meeting notice's date line ends with the room sentence exactly when a
      room was given. */
  lemma MeetingNamesRoomIff(d: MessageForm)
    ensures var line := MessageLines("meeting", d)[2];
      JsText.EndsWith(line, " Кабинет: " + d.room + ".") <==> d.room != ""
  {
    var line := MessageLines("meeting", d)[2];
    var sentence := " Кабинет: " + d.room + ".";
    if d.room == "" {
      var tail := MeetingSentence;
      assert line == (d.date + " күні сағат " + d.time) + tail;
      assert line[|line| - |sentence|..] == tail[|tail| - |sentence|..];
      assert tail[|tail| - |sentence|] != sentence[0];
    }
  }

  /** A congratulation with additional information carries it twice: as the
      greeting's paragraph and inside the date line. */
  lemma CongratsRepeatsInfo(d: MessageForm)
    requires d.additionalInfo != ""
    ensures var lines := MessageLines("congrats", d);
      lines[2] == d.additionalInfo && JsText.Contains(lines[4], d.additionalInfo)
  {
    var lines := MessageLines("congrats", d);
    assert lines[4] == (d.date + " күні ") + d.additionalInfo + " өтеді.";
    JsText.ContainsMiddle(d.date + " күні ", d.additionalInfo, " өтеді.");
  }
}
