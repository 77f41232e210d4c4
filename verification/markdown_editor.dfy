/** The markdown toolbar (client/src/components/MarkdownEditor.tsx): wrap
    the selected text in a pair of markers and select the wrapped text
    again. The text area and its selection are plain values here. */
module MarkdownEditor {
  import opened Common

  /** The new text and the selection range set on it. */
  datatype Edit = Edit(text: string, selStart: int, selEnd: int)

  /** `value.substring(a, b)`: both ends clamped into the string, and
      swapped when they come in the wrong order. */
  function Substring(s: string, a: int, b: int): (r: string)
    ensures 0 <= a <= b <= |s| ==> r == s[a..b]
    ensures 0 <= b <= a <= |s| ==> r == s[b..a]
    ensures 0 <= a <= |s| <= b ==> r == s[a..]
    ensures |r| <= |s|
  {
    var lo := if a < 0 then 0 else if a > |s| then |s| else a;
    var hi := if b < 0 then 0 else if b > |s| then |s| else b;
    if lo <= hi then s[lo..hi] else s[hi..lo]
  }

  /** `insertMarkdown(before, after)` with the text area's selection
      `[start, end)`: `before` goes in front of the selection and `after`
      behind it, and the selection moves onto the wrapped text. */
  function InsertMarkdown(value: string, start: nat, end: nat, before: string, after: string): (e: Edit)
    ensures e.selStart == start + |before|
    ensures e.selEnd - e.selStart == |Substring(value, start, end)|
    ensures start <= end <= |value| ==>
              && |e.text| == |value| + |before| + |after|
              && e.text[..start] == value[..start]
              && e.text[start..start + |before|] == before
              && e.text[e.selStart..e.selEnd] == value[start..end]
              && e.text[e.selEnd..e.selEnd + |after|] == after
              && e.text[e.selEnd + |after|..] == value[end..]
  {
    var selected := Substring(value, start, end);
    var text := Substring(value, 0, start) + before + selected + after + Substring(value, end, |value|);
    Edit(text, start + |before|, start + |before| + |selected|)
  }

  /** Removing the two markers again gives back the original text: the
      edit loses nothing outside and inside the selection. */
  lemma UnwrapRestores(value: string, start: nat, end: nat, before: string, after: string)
    requires start <= end <= |value|
    ensures var e := InsertMarkdown(value, start, end, before, after);
            e.text[..start] + e.text[e.selStart..e.selEnd] + e.text[e.selEnd + |after|..] == value
  {
    var e := InsertMarkdown(value, start, end, before, after);
    var head, middle, tail := e.text[..start], e.text[e.selStart..e.selEnd], e.text[e.selEnd + |after|..];
    assert head == value[..start] && middle == value[start..end] && tail == value[end..];
    SplitThree(value, start, end);
  }

  /** The toolbar buttons. */
  datatype Button = Bold | Italic | Heading | ListItem | CodeSpan | Link

  /** The markers each button passes to `insertMarkdown`. */
  function Before(b: Button): string {
    match b
    case Bold => "**"
    case Italic => "*"
    case Heading => "# "
    case ListItem => "- "
    case CodeSpan => "`"
    case Link => "["
  }

  function After(b: Button): string {
    match b
    case Bold => "**"
    case Italic => "*"
    case Heading => ""
    case ListItem => ""
    case CodeSpan => "`"
    case Link => "](url)"
  }

  /** Pressing a toolbar button. */
  function Press(value: string, start: nat, end: nat, b: Button): Edit {
    InsertMarkdown(value, start, end, Before(b), After(b))
  }

  /** With an empty closing marker only a prefix is inserted. */
  lemma PrefixOnly(value: string, start: nat, end: nat, before: string)
    requires start <= end <= |value|
    ensures InsertMarkdown(value, start, end, before, "").text == value[..start] + before + value[start..]
  {
    assert value[start..] == value[start..end] + value[end..];
  }

  /** The heading and list buttons only insert a prefix at the start of the
      selection; every other button puts a closing marker after it too. */
  lemma PrefixOnlyButtons(value: string, start: nat, end: nat, b: Button)
    requires start <= end <= |value|
    ensures b == Heading || b == ListItem ==>
              Press(value, start, end, b).text == value[..start] + Before(b) + value[start..]
    ensures !(b == Heading || b == ListItem) ==> |After(b)| > 0
  {
    if b == Heading || b == ListItem {
      PrefixOnly(value, start, end, Before(b));
    }
  }
}
