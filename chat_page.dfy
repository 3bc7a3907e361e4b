/** The chat page (chat_main/static/js/script.js): one paragraph per message
    id, updated in place when a message with a known id arrives again, and
    an input whose trimmed text is sent when it is not blank. The page is
    modelled by its paragraphs in document order. `getElementById("")`
    finds nothing, so messages with an empty id always append. */
module ChatPage {
  import opened Common

  datatype Paragraph = Paragraph(id: string, text: string)

  /** `${msg.sender}: ${msg.text}` */
  function Display(sender: string, text: string): string {
    sender + ": " + text
  }

  /** Non-empty ids label at most one paragraph. */
  ghost predicate UniqueIds(ps: seq<Paragraph>) {
    forall i, j :: 0 <= i < j < |ps| && ps[i].id != "" ==> ps[i].id != ps[j].id
  }

  /** `document.getElementById(id)`: the first paragraph with that id. */
  function Lookup(ps: seq<Paragraph>, id: string): (r: Option<nat>)
    ensures r.None? <==> id == "" || forall i :: 0 <= i < |ps| ==> ps[i].id != id
    ensures r.Some? ==> r.value < |ps| && ps[r.value].id == id && forall j :: 0 <= j < r.value ==> ps[j].id != id
  {
    if id == "" || ps == [] then None
    else if ps[0].id == id then Some(0)
    else
      var r := Lookup(ps[1..], id);
      assert forall j :: 1 <= j < |ps| ==> ps[j] == ps[1..][j - 1];
      if r.Some? then Some(r.value + 1) else None
  }

  /** The page after `onmessage` (lines 6-18) shows `line` under `id`. */
  function Upserted(ps: seq<Paragraph>, id: string, line: string): seq<Paragraph> {
    var at := Lookup(ps, id);
    if at.Some? then ps[at.value := Paragraph(id, line)] else ps + [Paragraph(id, line)]
  }

  /** A known id keeps the paragraph count and changes only its own text; a
      new one appends one paragraph at the end; ids stay unique. */
  lemma UpsertShape(ps: seq<Paragraph>, id: string, line: string)
    ensures var r := Upserted(ps, id, line);
      (Lookup(ps, id).Some? ==> (|r| == |ps| && r[Lookup(ps, id).value] == Paragraph(id, line) &&
        forall j :: 0 <= j < |ps| && j != Lookup(ps, id).value ==> r[j] == ps[j])) &&
      (Lookup(ps, id).None? ==> r == ps + [Paragraph(id, line)]) &&
      (UniqueIds(ps) ==> UniqueIds(r))
  {
    var r := Upserted(ps, id, line);
    if UniqueIds(ps) && Lookup(ps, id).None? {
      forall i, j | 0 <= i < j < |r| && r[i].id != "" ensures r[i].id != r[j].id {
        if j == |ps| {
          assert r[i] == ps[i];
        }
      }
    }
  }

  /** Of two messages with one non-empty id, the later one is what shows. */
  lemma {:induction false} UpsertLastWins(ps: seq<Paragraph>, id: string, a: string, b: string)
    requires id != ""
    ensures Upserted(Upserted(ps, id, a), id, b) == Upserted(ps, id, b)
  {
    var mid := Upserted(ps, id, a);
    var at := Lookup(ps, id);
    if at.Some? {
      assert Lookup(mid, id) == at by {
        assert mid[at.value].id == id && forall j :: 0 <= j < at.value ==> mid[j] == ps[j];
      }
    } else {
      assert Lookup(mid, id) == Some(|ps|) by {
        assert mid[|ps|].id == id && forall j :: 0 <= j < |ps| ==> mid[j] == ps[j];
      }
    }
  }

  class Page {
    var paragraphs: seq<Paragraph>
    var input: string
    var sent: seq<string>

    ghost predicate Valid()
      reads this
    {
      UniqueIds(paragraphs)
    }

    constructor ()
      ensures Valid() && paragraphs == [] && input == "" && sent == []
    {
      paragraphs, input, sent := [], "", [];
    }

    /** `document.getElementById` over the paragraphs, first match in document order. */
    method Find(id: string) returns (at: Option<nat>)
      ensures at == Lookup(paragraphs, id)
    {
      if id == "" {
        return None;
      }
      var i := 0;
      while i < |paragraphs|
        invariant 0 <= i <= |paragraphs|
        invariant forall j :: 0 <= j < i ==> paragraphs[j].id != id
      {
        if paragraphs[i].id == id {
          return Some(i);
        }
        i := i + 1;
      }
      return None;
    }

    /** `ws.onmessage` (lines 6-18). */
    method OnMessage(htmlid: string, sender: string, text: string)
      requires Valid()
      modifies this
      ensures Valid()
      ensures paragraphs == Upserted(old(paragraphs), htmlid, Display(sender, text))
      ensures input == old(input) && sent == old(sent)
    {
      UpsertShape(paragraphs, htmlid, Display(sender, text));
      var at := Find(htmlid);
      if at.Some? {
        paragraphs := paragraphs[at.value := Paragraph(htmlid, Display(sender, text))];
      } else {
        paragraphs := paragraphs + [Paragraph(htmlid, Display(sender, text))];
      }
    }

    /** The user types into the input. */
    method Type(value: string)
      modifies this
      ensures input == value && paragraphs == old(paragraphs) && sent == old(sent)
    {
      input := value;
    }

    /** `sendMessage` (lines 20-27): a blank input is neither sent nor cleared. */
    method SendMessage()
      modifies this
      ensures Trim(old(input)) == [] ==> unchanged(this)
      ensures Trim(old(input)) != [] ==> sent == old(sent) + [Trim(old(input))] && input == ""
      ensures paragraphs == old(paragraphs)
    {
      var text := Trim(input);
      if text != [] {
        sent := sent + [text];
        input := "";
      }
    }

    /** The `keydown` listener (lines 31-36): Enter sends, as the button does. */
    method OnKeyDown(key: string)
      modifies this
      ensures key != "Enter" ==> unchanged(this)
      ensures key == "Enter" && Trim(old(input)) == [] ==> unchanged(this)
      ensures key == "Enter" && Trim(old(input)) != [] ==> sent == old(sent) + [Trim(old(input))] && input == ""
      ensures paragraphs == old(paragraphs)
    {
      if key == "Enter" {
        SendMessage();
      }
    }
  }

  /** What `sendMessage` sends is never blank and carries no surrounding space. */
  lemma SentTextIsTrimmed(input: string)
    requires Trim(input) != []
    ensures !AllSpace(Trim(input)) && Trim(Trim(input)) == Trim(input)
  {
    TrimEmptyIff(input);
    TrimIdempotent(input);
    TrimEmptyIff(Trim(input));
  }
}
