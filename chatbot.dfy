/** The chatbot page: which HTTP endpoint a model name selects, and the
    formatter that turns a model's raw reply into the HTML string the page
    shows (`formatBotResponse`). */
module Chatbot {
  import opened JsText
  import opened ComLinks

  /** The endpoint `initializeChatbot` selects for the chosen model. */
  function ApiMethod(modelSelected: string): (endpoint: string)
    ensures endpoint == "/api/call-python4" <==> modelSelected == "AI21"
    ensures endpoint == "/api/call-python1" <==> modelSelected == "Amazon"
    ensures endpoint == "/api/conversation/predict-claude" <==>
      modelSelected != "AI21" && modelSelected != "Amazon"
  {
    if modelSelected == "AI21" then "/api/call-python4"
    else if modelSelected == "Amazon" then "/api/call-python1"
    else "/api/conversation/predict-claude"
  }

  /** Length of the run of decimal digits that starts the line. */
  function LeadingDigits(line: string): (n: nat)
    ensures n <= |line|
    ensures forall i :: 0 <= i < n ==> IsDigit(line[i])
    ensures n < |line| ==> !IsDigit(line[n])
  {
    if line == [] || !IsDigit(line[0]) then 0 else 1 + LeadingDigits(line[1..])
  }

  /** The line starts with `k` digits, a dot and one whitespace character:
      the shape `^\d+\.\s` reads as. */
  ghost predicate HasNumberedPrefix(line: string, k: int) {
    && 0 < k && k + 1 < |line|
    && (forall i :: 0 <= i < k ==> IsDigit(line[i]))
    && line[k] == '.'
    && IsWhitespace(line[k + 1])
  }

  /** `regexNumberedList.test(line)` for `/^\d+\.\s/`: as `\d+` cannot take
      the dot, the engine only has to look after the whole digit run. */
  predicate IsNumberedItem(line: string) {
    var n := LeadingDigits(line);
    0 < n && n + 1 < |line| && line[n] == '.' && IsWhitespace(line[n + 1])
  }

  /** The test agrees with the pattern's reading, and the prefix it matches
      is unique. */
  lemma NumberedItemIff(line: string, k: int)
    ensures HasNumberedPrefix(line, k) ==> IsNumberedItem(line) && k == LeadingDigits(line)
    ensures IsNumberedItem(line) ==> HasNumberedPrefix(line, LeadingDigits(line))
  {
    if HasNumberedPrefix(line, k) {
      assert !IsDigit(line[k]);
      DigitRunCovers(line, k);
    }
  }

  /** A run of `k` digits at the start is covered by `LeadingDigits`. */
  lemma {:induction false} DigitRunCovers(line: string, k: nat)
    requires k <= |line| && forall i :: 0 <= i < k ==> IsDigit(line[i])
    ensures k <= LeadingDigits(line)
  {
    if k > 0 {
      assert IsDigit(line[0]);
      DigitRunCovers(line[1..], k - 1);
    }
  }

  /** `line.replace(regexNumberedList, '')`: the line without its
      `digits '.' whitespace` prefix. */
  function StripNumbered(line: string): (r: string)
    requires IsNumberedItem(line)
    ensures |r| + 3 <= |line| && r == line[|line| - |r|..]
    ensures HasNumberedPrefix(line, |line| - |r| - 2)
  {
    line[LeadingDigits(line) + 2..]
  }

  /** The characters of `/^[\-\*\+\â€¢]/`: the bullet glyph of the pattern
      was saved mis-encoded, so the class holds `-`, `*`, `+` and the three
      characters U+00E2, U+20AC and U+00A2 instead of U+2022. */
  predicate IsBulletChar(c: char) {
    c == '-' || c == '*' || c == '+' || c == '\U{00E2}' || c == '\U{20AC}' || c == '\U{00A2}'
  }

  /** `regexBulletedList.test(line)`. */
  predicate IsBulletedItem(line: string) {
    |line| > 0 && IsBulletChar(line[0])
  }

  /** A numbered line never counts as a bulleted one: it starts with a digit. */
  lemma NumberedIsNotBulleted(line: string)
    requires IsNumberedItem(line)
    ensures !IsBulletedItem(line)
  {
    assert IsDigit(line[0]);
  }

  /** The two flags of the first pass over the lines. */
  datatype ListFlags = ListFlags(isNumberedList: bool, isBulletedList: bool)

  ghost predicate AnyNumbered(lines: seq<string>) {
    exists i :: 0 <= i < |lines| && IsNumberedItem(lines[i])
  }

  ghost predicate AnyBulleted(lines: seq<string>) {
    exists i :: 0 <= i < |lines| && !IsNumberedItem(lines[i]) && IsBulletedItem(lines[i])
  }

  /** What the first `forEach` computes. */
  ghost function Classify(lines: seq<string>): ListFlags {
    ListFlags(AnyNumbered(lines), AnyBulleted(lines))
  }

  /** The HTML a single line contributes inside the list wrapper. */
  function LineFragment(line: string, flags: ListFlags): string {
    if flags.isNumberedList && IsNumberedItem(line) then
      "<li>" + Linkify(StripNumbered(line)) + "</li>"
    else if flags.isBulletedList && IsBulletedItem(line) then
      "<li>" + Linkify(line[1..]) + "</li>"
    else
      Linkify(line) + "\n"
  }

  /** The fragments of the lines, one per line, concatenated in line order. */
  function ListBody(lines: seq<string>, flags: ListFlags): string {
    if lines == [] then []
    else ListBody(lines[..|lines| - 1], flags) + LineFragment(lines[|lines| - 1], flags)
  }

  function ListTag(flags: ListFlags): string {
    if flags.isNumberedList then "ol" else "ul"
  }

  /** The lines the formatter works on: the trimmed reply split at `'\n'`. */
  function Lines(response: string): seq<string> {
    Split(Trim(response), '\n')
  }

  /** What `formatBotResponse` returns, stated at once: either the untrimmed
      reply with its first `.com` token linked, or a single `<ol>`/`<ul>`
      wrapper around one fragment per line. */
  ghost function FormatSpec(response: string): string {
    var lines := Lines(response);
    var flags := Classify(lines);
    if !flags.isNumberedList && !flags.isBulletedList then Linkify(response)
    else "<" + ListTag(flags) + ">" + ListBody(lines, flags) + "</" + ListTag(flags) + ">"
  }

  lemma AppendAssoc(a: string, b: string, c: string)
    ensures a + (b + c) == (a + b) + c
  {
  }

  /** `formatBotResponse`: one pass over the lines sets the two flags; with
      neither set the untrimmed reply is link-substituted, otherwise a
      second pass builds the list. */
  method FormatBotResponse(response: string) returns (html: string)
    ensures html == FormatSpec(response)
  {
    var lines := Split(Trim(response), '\n');
    var isNumberedList, isBulletedList := ClassifyLines(lines);
    if !isNumberedList && !isBulletedList {
      return Linkify(response);
    }
    html := BuildList(lines, ListFlags(isNumberedList, isBulletedList));
  }

  /** The first `forEach`: a line that passes the numbered test sets
      `isNumberedList`; one that fails it but passes the bulleted test sets
      `isBulletedList`. */
  method ClassifyLines(lines: seq<string>) returns (isNumberedList: bool, isBulletedList: bool)
    ensures ListFlags(isNumberedList, isBulletedList) == Classify(lines)
  {
    isNumberedList := false;
    isBulletedList := false;
    for i := 0 to |lines|
      invariant isNumberedList <==> exists j :: 0 <= j < i && IsNumberedItem(lines[j])
      invariant isBulletedList <==>
        exists j :: 0 <= j < i && !IsNumberedItem(lines[j]) && IsBulletedItem(lines[j])
    {
      if IsNumberedItem(lines[i]) {
        isNumberedList := true;
      } else if IsBulletedItem(lines[i]) {
        isBulletedList := true;
      }
    }
  }

  /** The second `forEach`: list items go to the `listItems` buffer, which
      is flushed into `result` before every other line and once more at the
      end, so the fragments come out in line order inside one wrapper. */
  method BuildList(lines: seq<string>, flags: ListFlags) returns (html: string)
    ensures html == "<" + ListTag(flags) + ">" + ListBody(lines, flags) + "</" + ListTag(flags) + ">"
  {
    var isNumberedList, isBulletedList := flags.isNumberedList, flags.isBulletedList;
    var listType := if isNumberedList then "ol" else "ul";
    var result := "<" + listType + ">";
    var listItems := "";
    ghost var open := result;
    for i := 0 to |lines|
      invariant result + listItems == open + ListBody(lines[..i], flags)
    {
      var line := lines[i];
      ghost var before := result + listItems;
      assert lines[..i + 1][..i] == lines[..i];
      assert ListBody(lines[..i + 1], flags) == ListBody(lines[..i], flags) + LineFragment(line, flags);
      AppendAssoc(open, ListBody(lines[..i], flags), LineFragment(line, flags));
      if isNumberedList && IsNumberedItem(line) {
        var item := "<li>" + Linkify(StripNumbered(line)) + "</li>";
        assert item == LineFragment(line, flags);
        AppendAssoc(result, listItems, item);
        listItems := listItems + item;
      } else if isBulletedList && IsBulletedItem(line) {
        var item := "<li>" + Linkify(line[1..]) + "</li>";
        assert item == LineFragment(line, flags);
        AppendAssoc(result, listItems, item);
        listItems := listItems + item;
      } else {
        if listItems != "" {
          result := result + listItems;
          listItems := "";
        }
        assert result == before;
        var text := Linkify(line) + "\n";
        assert text == LineFragment(line, flags);
        result := result + text;
        assert listItems == [];
        assert result + listItems == before + text;
      }
    }
    if listItems != "" {
      result := result + listItems;
    }
    assert lines[..|lines|] == lines;
    assert result == open + ListBody(lines, flags);
    result := result + ("</" + listType + ">");
    html := result;
    assert listType == ListTag(flags) && open == "<" + ListTag(flags) + ">";
    ghost var x := open + ListBody(lines, flags);
    AppendAssoc(x, "</" + listType, ">");
    AppendAssoc(x, "</", listType);
  }
}

/** What the formatter promises, stated over `FormatSpec`. */
module ChatbotProperties {
  import opened JsText
  import opened ComLinks
  import opened Chatbot

  /** The fragments of a concatenation of line lists are the fragments of
      the first list followed by those of the second: every line adds its
      own fragment, in order, and no line's fragment depends on another. */
  lemma {:induction false} ListBodyAppend(a: seq<string>, b: seq<string>, flags: ListFlags)
    ensures ListBody(a + b, flags) == ListBody(a, flags) + ListBody(b, flags)
    decreases |b|
  {
    if b == [] {
      assert a + b == a;
    } else {
      var b' := b[..|b| - 1];
      var last := b[|b| - 1];
      assert (a + b)[..|a + b| - 1] == a + b';
      ListBodyAppend(a, b', flags);
      AppendAssoc(ListBody(a, flags), ListBody(b', flags), LineFragment(last, flags));
    }
  }

  /** A reply in which no line is a list item comes back as the untrimmed
      reply with only its first `.com` token linked; with no such token, it
      comes back unchanged. */
  lemma PlainReply(response: string)
    requires !AnyNumbered(Lines(response)) && !AnyBulleted(Lines(response))
    ensures FormatSpec(response) == Linkify(response)
    ensures NoComToken(response) ==> FormatSpec(response) == response
  {
    LinkifySpec(response);
  }

  /** A reply with some list item is one `<ol>` wrapper when any line is
      numbered and one `<ul>` wrapper otherwise, around the lines' fragments. */
  lemma ListReply(response: string)
    requires AnyNumbered(Lines(response)) || AnyBulleted(Lines(response))
    ensures var tag := if AnyNumbered(Lines(response)) then "ol" else "ul";
      FormatSpec(response)
        == "<" + tag + ">" + ListBody(Lines(response), Classify(Lines(response))) + "</" + tag + ">"
  {
  }

  /** A numbered line becomes one `<li>` holding the rest of the line after
      its `digits '.' whitespace` prefix, link-substituted. */
  lemma NumberedLine(lines: seq<string>, i: int, k: int)
    requires 0 <= i < |lines| && HasNumberedPrefix(lines[i], k)
    ensures LineFragment(lines[i], Classify(lines)) == "<li>" + Linkify(lines[i][k + 2..]) + "</li>"
  {
    NumberedItemIff(lines[i], k);
  }

  /** A bulleted line becomes one `<li>` holding the line without its first
      character, link-substituted, even when the wrapper is `<ol>`. */
  lemma BulletedLine(lines: seq<string>, i: int)
    requires 0 <= i < |lines| && IsBulletedItem(lines[i])
    ensures LineFragment(lines[i], Classify(lines)) == "<li>" + Linkify(lines[i][1..]) + "</li>"
  {
    if IsNumberedItem(lines[i]) {
      NumberedIsNotBulleted(lines[i]);
    }
    assert AnyBulleted(lines);
  }

  /** Any other line is kept, link-substituted, with a `'\n'` after it. */
  lemma OtherLine(lines: seq<string>, i: int)
    requires 0 <= i < |lines| && !IsNumberedItem(lines[i]) && !IsBulletedItem(lines[i])
    ensures LineFragment(lines[i], Classify(lines)) == Linkify(lines[i]) + "\n"
  {
  }
}

/** Worked replies. */
module ChatbotExamples {
  import opened JsText
  import opened ComLinks
  import opened Chatbot

  /** A two-line reply is split back into its two lines. */
  lemma TwoLines(a: string, b: string)
    requires '\n' !in a && '\n' !in b
    requires a != [] && !IsWhitespace(a[0]) && b != [] && !IsWhitespace(b[|b| - 1])
    ensures Lines(a + "\n" + b) == [a, b]
  {
    var s := a + "\n" + b;
    TrimOfTrimmed(s);
    assert Join([a, b], '\n') == s;
    SplitJoin([a, b], '\n');
  }

  /** The lines `[a, b]` of a numbered line followed by a bulleted one
      set both flags, and each line gives one `<li>` item. */
  lemma NumberedThenBulletedBody(a: string, b: string)
    requires IsNumberedItem(a) && IsBulletedItem(b)
    ensures Classify([a, b]) == ListFlags(true, true)
    ensures ListBody([a, b], Classify([a, b]))
      == ("<li>" + Linkify(StripNumbered(a)) + "</li>") + ("<li>" + Linkify(b[1..]) + "</li>")
  {
    if IsNumberedItem(b) {
      NumberedIsNotBulleted(b);
    }
    var lines := [a, b];
    assert lines[0] == a && lines[1] == b;
    assert AnyNumbered(lines) && AnyBulleted(lines);
    ListBodyPair(a, b, ListFlags(true, true));
  }

  lemma ListBodyPair(a: string, b: string, flags: ListFlags)
    ensures ListBody([a, b], flags) == LineFragment(a, flags) + LineFragment(b, flags)
  {
    assert [a, b][..1] == [a];
    assert [a][..0] == [];
    assert ListBody([a], flags) == LineFragment(a, flags);
  }

  /** A numbered line followed by a bulleted one: both become `<li>` items
      of one `<ol>`. */
  lemma NumberedThenBulleted(a: string, b: string)
    requires IsNumberedItem(a) && IsBulletedItem(b)
    requires '\n' !in a && '\n' !in b && !IsWhitespace(b[|b| - 1])
    ensures FormatSpec(a + "\n" + b)
      == "<ol>" + (("<li>" + Linkify(StripNumbered(a)) + "</li>") + ("<li>" + Linkify(b[1..]) + "</li>")) + "</ol>"
  {
    assert IsDigit(a[0]);
    TwoLines(a, b);
    NumberedThenBulletedBody(a, b);
    var body := ListBody([a, b], ListFlags(true, true));
    assert FormatSpec(a + "\n" + b) == "<" + "ol" + ">" + body + "</" + "ol" + ">";
    OrderedWrapper(body);
  }

  lemma OrderedWrapper(body: string)
    ensures "<" + "ol" + ">" + body + "</" + "ol" + ">" == "<ol>" + body + "</ol>"
  {
  }

  /** `"1. apple\n- banana"` becomes
      `<ol><li>apple</li><li> banana</li></ol>`: the bulleted line keeps the
      space after its dash. */
  lemma MixedListIsOneOrderedList(a: string, b: string)
    requires a == "1. apple" && b == "- banana"
    ensures FormatSpec(a + "\n" + b) == "<ol><li>apple</li><li> banana</li></ol>"
  {
    assert LeadingDigits(a) == 1;
    assert IsNumberedItem(a) && IsBulletedItem(b);
    NumberedThenBulleted(a, b);
    var x, y := StripNumbered(a), b[1..];
    assert x == "apple" && y == " banana";
    PlainWords(x);
    PlainWords(y);
    MixedListText(x, y);
  }

  lemma MixedListText(x: string, y: string)
    requires x == "apple" && y == " banana"
    ensures "<ol>" + (("<li>" + x + "</li>") + ("<li>" + y + "</li>")) + "</ol>"
      == "<ol><li>apple</li><li> banana</li></ol>"
  {
  }

  lemma PlainWords(x: string)
    requires x == "apple" || x == " banana"
    ensures Linkify(x) == x
  {
    NoDotNoLink(x);
  }
}
