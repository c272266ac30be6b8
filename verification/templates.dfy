/** The fixed template catalog loaded when the simulator starts: three canned
    phishing e-mails, each with one `{link}` placeholder in its body.
 */
module Templates {
  import opened Text

  datatype EmailTemplate = EmailTemplate(
    name: string,
    subject: string,
    body: string,
    sender: string,
    difficulty: string)

  /** The concatenation of text fragments. */
  function Concat(parts: seq<string>): string {
    if |parts| == 0 then "" else parts[0] + Concat(parts[1..])
  }

  /** Text assembled from `{`-free fragments is `{`-free. */
  lemma {:induction false} ConcatPlain(parts: seq<string>)
    requires forall i :: 0 <= i < |parts| ==> '{' !in parts[i]
    ensures '{' !in Concat(parts)
  {
    if |parts| > 0 {
      ConcatPlain(parts[1..]);
    }
  }

  // Each body is the text before the placeholder, the placeholder, and the text after it;
  // the text before it is kept as a list of fragments so that each is checked separately.

  const PasswordResetParts: seq<string> := [
    "Уважаемый сотрудник,\n\n",
    "Наша система безопасности ", "обнаружила ", "подозрительную активность.\n",
    "Для защиты данных требуется ", "немедленный сброс пароля.\n\n",
    "Ссылка: "]
  const PasswordResetTail: string := "\n\nС уважением,\nОтдел ИБ"

  const SoftwareUpdateParts: seq<string> := [
    "Здравствуйте,\n\n",
    "Требуется установить ", "обновление безопасности.\n",
    "Пожалуйста, перейдите ", "по ссылке для установки:\n\n"]
  const SoftwareUpdateTail: string := "\n\nС уважением,\nIT отдел"

  const CeoRequestParts: seq<string> := [
    "Добрый день,\n\n",
    "Прошу вас ознакомиться ", "с важным документом.\n",
    "Доступ по ссылке:\n\n"]
  const CeoRequestTail: string := "\n\nС уважением,\nГенеральный директор"

  lemma PasswordResetOpeningPlain()
    ensures forall i :: 0 <= i < 3 ==> '{' !in PasswordResetParts[i]
  {
    forall i | 0 <= i < 3 ensures '{' !in PasswordResetParts[i] {
      if i == 0 {} else if i == 1 {} else {}
    }
  }

  lemma PasswordResetClosingPlain()
    ensures forall i :: 3 <= i < |PasswordResetParts| ==> '{' !in PasswordResetParts[i]
    ensures '{' !in PasswordResetTail
  {
    forall i | 3 <= i < |PasswordResetParts| ensures '{' !in PasswordResetParts[i] {
      if i == 3 {} else if i == 4 {} else if i == 5 {} else {}
    }
  }

  lemma PasswordResetPlain()
    ensures '{' !in Concat(PasswordResetParts) && '{' !in PasswordResetTail
  {
    PasswordResetOpeningPlain();
    PasswordResetClosingPlain();
    ConcatPlain(PasswordResetParts);
  }

  lemma SoftwareUpdateOpeningPlain()
    ensures forall i :: 0 <= i < 2 ==> '{' !in SoftwareUpdateParts[i]
  {
    forall i | 0 <= i < 2 ensures '{' !in SoftwareUpdateParts[i] {
      if i == 0 {} else {}
    }
  }

  lemma SoftwareUpdateClosingPlain()
    ensures forall i :: 2 <= i < |SoftwareUpdateParts| ==> '{' !in SoftwareUpdateParts[i]
    ensures '{' !in SoftwareUpdateTail
  {
    forall i | 2 <= i < |SoftwareUpdateParts| ensures '{' !in SoftwareUpdateParts[i] {
      if i == 2 {} else if i == 3 {} else {}
    }
  }

  lemma SoftwareUpdatePlain()
    ensures '{' !in Concat(SoftwareUpdateParts) && '{' !in SoftwareUpdateTail
  {
    SoftwareUpdateOpeningPlain();
    SoftwareUpdateClosingPlain();
    ConcatPlain(SoftwareUpdateParts);
  }

  lemma CeoRequestOpeningPlain()
    ensures forall i :: 0 <= i < 2 ==> '{' !in CeoRequestParts[i]
  {
    forall i | 0 <= i < 2 ensures '{' !in CeoRequestParts[i] {
      if i == 0 {} else {}
    }
  }

  lemma CeoRequestClosingPlain()
    ensures forall i :: 2 <= i < |CeoRequestParts| ==> '{' !in CeoRequestParts[i]
    ensures '{' !in CeoRequestTail
  {
    forall i | 2 <= i < |CeoRequestParts| ensures '{' !in CeoRequestParts[i] {
      if i == 2 {} else {}
    }
  }

  lemma CeoRequestPlain()
    ensures '{' !in Concat(CeoRequestParts) && '{' !in CeoRequestTail
  {
    CeoRequestOpeningPlain();
    CeoRequestClosingPlain();
    ConcatPlain(CeoRequestParts);
  }

  /** The catalog, keyed by template name (exact, case-sensitive lookups). */
  const Catalog: map<string, EmailTemplate> := map[
    "password_reset" := EmailTemplate(
      "password_reset", "Срочный сброс пароля",
      Concat(PasswordResetParts) + Placeholder + PasswordResetTail,
      "security@company.com", "low"),
    "software_update" := EmailTemplate(
      "software_update", "Критическое обновление ПО",
      Concat(SoftwareUpdateParts) + Placeholder + SoftwareUpdateTail,
      "it-support@company.com", "medium"),
    "ceo_request" := EmailTemplate(
      "ceo_request", "Срочный запрос от руководства",
      Concat(CeoRequestParts) + Placeholder + CeoRequestTail,
      "ceo@company.com", "high")
  ]

  /** The catalog holds exactly the three named templates; every entry is stored
      under its own name and carries one of the three difficulty labels. */
  lemma CatalogShape()
    ensures Catalog.Keys == {"password_reset", "software_update", "ceo_request"}
    ensures forall k :: k in Catalog ==> Catalog[k].name == k
    ensures forall k :: k in Catalog ==> Catalog[k].difficulty in {"low", "medium", "high"}
  {
  }

  /** Every catalog body is a `{`-free head, the placeholder, and a `{`-free tail. */
  lemma CatalogBodyParts(key: string) returns (head: string, tail: string)
    requires key in Catalog
    ensures '{' !in head && '{' !in tail
    ensures Catalog[key].body == head + Placeholder + tail
  {
    if key == "password_reset" {
      head, tail := Concat(PasswordResetParts), PasswordResetTail;
      PasswordResetPlain();
    } else if key == "software_update" {
      head, tail := Concat(SoftwareUpdateParts), SoftwareUpdateTail;
      SoftwareUpdatePlain();
    } else {
      head, tail := Concat(CeoRequestParts), CeoRequestTail;
      CeoRequestPlain();
    }
  }

  /** Every catalog body contains the placeholder exactly once, and rendering it
      with any link puts the link in the placeholder's place and changes nothing else. */
  lemma CatalogBodyRendering(key: string, link: string)
    requires key in Catalog
    ensures exists head, tail ::
      && '{' !in head && '{' !in tail
      && Catalog[key].body == head + Placeholder + tail
      && ReplaceLink(Catalog[key].body, link) == head + link + tail
  {
    var head, tail := CatalogBodyParts(key);
    ReplaceLinkSingle(head, tail, link);
  }
}
