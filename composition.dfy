/** How the components meet: what one side sends, as the other side reads it. */
module Composition {
  import opened Common
  import PeerRelay
  import AngularPeer
  import Validator
  import ChatServer
  import ChatPage
  import FormRules
  import RegisterForm
  import Registration

  /** The Angular component answers an offer to the offer's `from`, its
      sender's own random `wsId`; the FastAPI relay knows clients only by
      the ids it assigned, so unless that `wsId` happens to be one of them
      the answer reaches nobody. */
  lemma AngularAnswerIsDropped(clients: seq<PeerRelay.ClientId>, caller: string, callee: string, offer: string, answer: string)
    requires caller !in clients
    ensures var sent := AngularPeer.OfferMessage(Some(callee), caller, offer);
      PeerRelay.Route(clients, AngularPeer.AnswerMessage(sent.from, answer)) == []
  {
  }

  /** An offer to a registered client does get through, unchanged. */
  lemma AngularOfferIsRouted(clients: seq<PeerRelay.ClientId>, caller: string, callee: string, offer: string)
    requires callee in clients && callee != ""
    ensures var sent := AngularPeer.OfferMessage(Some(callee), caller, offer);
      PeerRelay.Route(clients, sent) == [PeerRelay.Send(callee, sent)]
  {
  }

  /** A page that receives a message and then its correction under the same
      non-empty `htmlid` shows one paragraph with the corrected text, as if
      only the correction had arrived. */
  lemma CorrectionReplacesOriginal(ps: seq<ChatPage.Paragraph>, htmlid: string, sender: string, text: string, words: seq<string>)
    requires htmlid != ""
    ensures var v := Validator.ProcessMessage(text, words);
      var shown := ChatPage.Upserted(ChatPage.Upserted(ps, htmlid, ChatPage.Display(sender, text)), htmlid, ChatPage.Display(sender, v.newMessage));
      shown == ChatPage.Upserted(ps, htmlid, ChatPage.Display(sender, v.newMessage)) &&
      |shown| <= |ps| + 1
  {
    var v := Validator.ProcessMessage(text, words);
    ChatPage.UpsertLastWins(ps, htmlid, ChatPage.Display(sender, text), ChatPage.Display(sender, v.newMessage));
    ChatPage.UpsertShape(ps, htmlid, ChatPage.Display(sender, v.newMessage));
  }

  /** With an empty `htmlid` both broadcasts append, so the uncorrected
      text stays on the page next to the correction. */
  lemma EmptyIdKeepsOriginal(ps: seq<ChatPage.Paragraph>, sender: string, text: string, fixed: string)
    ensures ChatPage.Upserted(ChatPage.Upserted(ps, "", ChatPage.Display(sender, text)), "", ChatPage.Display(sender, fixed)) ==
      ps + [ChatPage.Paragraph("", ChatPage.Display(sender, text)), ChatPage.Paragraph("", ChatPage.Display(sender, fixed))]
  {
  }

  /** Three characters outside the Basic Multilingual Plane: six UTF-16 units
      in the browser, three code points on the server. */
  const AstralPassword: string := "\U{1F600}\U{1F600}\U{1F600}"

  const AstralForm: FormRules.Fields :=
    FormRules.Fields("a@b.cd", "Ян", "Ли", "Ив", "ИТ", AstralPassword, AstralPassword)

  lemma ExampleEmailPasses()
    ensures FormRules.EmailOk("a@b.cd")
  {
    var e := "a@b.cd";
    assert e[0] != '@' && e[1] == '@';
    assert e[1..][0] == '@';
    assert FormRules.FirstAt(e) == Some(1);
    assert e[2..] == "b.cd";
    assert e[2..][1] == '.';
  }

  lemma ExampleNamesPass()
    ensures FormRules.TrimmedAtLeast("Ян", 2) && FormRules.TrimmedAtLeast("Ли", 2) && FormRules.TrimmedAtLeast("ИТ", 2)
  {
    assert Trim("Ян") == "Ян" && Trim("Ли") == "Ли" && Trim("ИТ") == "ИТ";
  }

  lemma AstralPasswordLength()
    ensures FormRules.JsLength(AstralPassword) == 6 && |AstralPassword| == 3
  {
    var p := AstralPassword;
    assert p[1..][1..][1..] == [];
  }

  /** The browser form accepts a password that the registration endpoint
      rejects as shorter than six characters. */
  lemma AstralPasswordSplitsClientAndServer()
    ensures RegisterForm.ValidateForm(AstralForm).None?
    ensures Registration.Decide([], AstralForm) ==
      Registration.Rejected(Registration.BadRequest, Registration.Rewrapped(Registration.ShortPasswordDetail))
  {
    ExampleEmailPasses();
    ExampleNamesPass();
    AstralPasswordLength();
  }

  /** The browser never reads the patronymic, so it accepts a form that
      leaves it empty; the endpoint answers such a form with 422, naming
      `middle_name`, before its own guards run. */
  lemma EmptyPatronymicSplitsClientAndServer(f: FormRules.Fields)
    requires f.middleName == []
    requires RegisterForm.ValidateForm(f.(middleName := "Ив")).None?
    ensures RegisterForm.ValidateForm(f).None?
    ensures var r := Registration.Decide([], f); r.Unprocessable? && "middle_name" in r.missing
  {
    RegisterForm.MiddleNameNeverChecked(f, "Ив");
  }
}
