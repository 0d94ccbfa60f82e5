/** `normalizeClientItem`: how one entry of the client-sent `history` array
    becomes a stored turn, or is dropped. Entries arrive as parsed JSON, so
    the model keeps exactly the parts of a JavaScript value the function
    looks at. */
module Normalize {
  import opened Options
  import opened JsText
  import opened Conversation

  /** A property of a parsed JSON value, as the function sees it: missing
      (`undefined`), a string, or any other value with its truthiness and
      its `String(...)` form. */
  datatype JsValue = Absent | Str(s: string) | Other(truthy: bool, shown: string)

  /** One entry of the client's `history` array: anything that is not an
      object (including `null`), or an object (arrays included) with the
      five properties the function reads and `String(item)`, the form the
      whole entry takes when no text property is a string ("[object Object]"
      for a plain object). */
  datatype ClientItem =
    | NotObject
    | Object(role: JsValue, who: JsValue, content: JsValue, text: JsValue, message: JsValue, shown: string)

  predicate Truthy(v: JsValue)
  {
    match v
    case Absent => false
    case Str(s) => s != ""
    case Other(t, _) => t
  }

  /** `v.toString()` of a truthy value. */
  function Shown(v: JsValue): string
  {
    match v
    case Absent => ""
    case Str(s) => s
    case Other(_, sh) => sh
  }

  /** The role labels that mean the model's side. */
  const MODEL_LABELS: set<string> := {"assistant", "bot", "model", "system"}

  /** `(item.role || item.who || "").toString()`: the first truthy label. */
  function RoleLabel(item: ClientItem): string
    requires item.Object?
  {
    if Truthy(item.role) then Shown(item.role)
    else if Truthy(item.who) then Shown(item.who)
    else ""
  }

  /** The role the label maps to: `model` for the four model labels in any
      letter case, `user` for everything else, missing labels included. */
  function RoleOf(item: ClientItem): Role
    requires item.Object?
  {
    if LowerCase(RoleLabel(item)) in MODEL_LABELS then Model else User
  }

  /** The text before trimming: the first of `content`, `text`, `message`
      that is a string (even an empty one), else the whole entry as a
      string. */
  function RawContent(item: ClientItem): string
    requires item.Object?
  {
    if item.content.Str? then item.content.s
    else if item.text.Str? then item.text.s
    else if item.message.Str? then item.message.s
    else item.shown
  }

  /** `normalizeClientItem(item)`: `None` for a non-object and for a blank
      text; otherwise the mapped role and the trimmed text, capped to its
      last `MAX_MESSAGE_CHARS` characters. */
  function NormalizeClientItem(item: ClientItem): Option<Turn>
  {
    if item.NotObject? then None
    else
      var content := Trim(RawContent(item));
      if content == "" then None
      else Some(Turn(RoleOf(item), SafeText(content)))
  }

  /** An entry is dropped exactly when it is not an object or its text is
      blank; a kept entry has the mapped role and the trimmed text, capped
      to exactly its last `MAX_MESSAGE_CHARS` characters when longer and
      unchanged within the cap, and never ends in whitespace. */
  lemma NormalizeClientItemProperties(item: ClientItem)
    ensures var r := NormalizeClientItem(item);
      && (r.None? <==> item.NotObject? || AllWhitespace(RawContent(item)))
      && (r.Some? ==> r.value.role == RoleOf(item))
      && (r.Some? ==> 0 < |r.value.text| <= MAX_MESSAGE_CHARS)
      && (r.Some? ==> !IsWhitespace(r.value.text[|r.value.text| - 1]))
      && (r.Some? ==> var t := Trim(RawContent(item));
            |r.value.text| <= |t| && r.value.text == t[|t| - |r.value.text|..])
      && (r.Some? && |Trim(RawContent(item))| <= MAX_MESSAGE_CHARS ==>
            r.value.text == Trim(RawContent(item)))
      && (r.Some? && |Trim(RawContent(item))| > MAX_MESSAGE_CHARS ==>
            |r.value.text| == MAX_MESSAGE_CHARS)
  {
  }

  /** The first loop of the merge: every entry normalized, dropped entries
      left out, order kept. */
  function NormalizeAll(items: seq<ClientItem>): (r: seq<Turn>)
    ensures |r| <= |items|
  {
    if items == [] then []
    else
      var front := NormalizeAll(items[..|items| - 1]);
      match NormalizeClientItem(items[|items| - 1])
      case None => front
      case Some(t) => front + [t]
  }

  /** One more entry of the first loop. */
  lemma NormalizeAllStep(items: seq<ClientItem>, i: nat)
    requires i < |items|
    ensures var n := NormalizeClientItem(items[i]);
      NormalizeAll(items[..i + 1]) == NormalizeAll(items[..i]) + (if n.Some? then [n.value] else [])
  {
    assert items[..i + 1][..i] == items[..i];
  }

  /** Every normalized turn has a capped, non-empty text. */
  lemma {:induction false} NormalizeAllCapped(items: seq<ClientItem>)
    ensures forall i :: 0 <= i < |NormalizeAll(items)| ==>
      0 < |NormalizeAll(items)[i].text| <= MAX_MESSAGE_CHARS
  {
    if items != [] {
      var front := items[..|items| - 1];
      NormalizeAllCapped(front);
      var n := NormalizeClientItem(items[|items| - 1]);
      if n.Some? {
        assert NormalizeAll(items) == NormalizeAll(front) + [n.value];
      } else {
        assert NormalizeAll(items) == NormalizeAll(front);
      }
    }
  }

  /** The entry shape the browser sends, `{ role, content }`. */
  function ClientEntry(role: string, content: string): ClientItem
  {
    Object(Str(role), Absent, Str(content), Absent, Absent, OBJECT_STRING)
  }

  /** The browser's "user" label gives `user`. */
  lemma UserLabel(content: string)
    ensures RoleOf(ClientEntry("user", content)) == User
  {
    LowerCaseOfLower("user");
  }

  /** The browser's "assistant" label gives `model`. */
  lemma AssistantLabel(content: string)
    ensures RoleOf(ClientEntry("assistant", content)) == Model
  {
    LowerCaseOfLower("assistant");
  }

  /** A label made of lower-case letters is compared as it is. */
  lemma LabelOf(name: string, content: string)
    requires name != "" && forall c :: c in name ==> 'a' <= c <= 'z'
    ensures RoleOf(ClientEntry(name, content)) == if name in MODEL_LABELS then Model else User
  {
    LowerCaseOfLower(name);
  }

  /** Upper-case labels are recognised too: "BOT" gives `model`. */
  lemma UpperCaseLabel(content: string)
    ensures RoleOf(ClientEntry("BOT", content)) == Model
  {
    var l := "BOT";
    assert LowerCase(l) == "bot" by {
      assert LowerChar(l[0]) == "b";
      assert LowerChar(l[1]) == "o";
      assert LowerChar(l[2]) == "t";
      assert LowerCase(l[2..]) == "t";
      assert LowerCase(l[1..]) == "o" + LowerCase(l[2..]);
    }
  }

  /** `String(item)` of a plain object. */
  const OBJECT_STRING := "[object Object]"

  /** An entry with no string text property is stored as the whole entry
      stringified; for a plain object that is the non-empty turn
      "[object Object]" (with no label, a user turn). */
  lemma NonStringTextStringified(role: JsValue, message: JsValue, shown: string)
    requires !Truthy(role) && !message.Str?
    requires shown != "" && !IsWhitespace(shown[0]) && !IsWhitespace(shown[|shown| - 1])
    requires |shown| <= MAX_MESSAGE_CHARS
    ensures NormalizeClientItem(Object(role, Absent, Absent, Absent, message, shown))
      == Some(Turn(User, shown))
  {
    var item := Object(role, Absent, Absent, Absent, message, shown);
    assert RawContent(item) == shown;
    TrimOfTight(shown);
    assert RoleLabel(item) == "";
    assert LowerCase("") == "";
    assert RoleOf(item) == User;
  }

  /** An empty `content` string is chosen over a non-empty `text`: the entry
      is then dropped. */
  lemma EmptyContentWins(text: string)
    ensures NormalizeClientItem(Object(Absent, Absent, Str(""), Str(text), Absent, OBJECT_STRING)).None?
  {
  }
}
