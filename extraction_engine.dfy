/** Reading one credential entry out of a parsed cached policy file: the
    two `SelectSingleNode` lookups, the `foreach` loops over their
    attributes, the `[BLANK]` sentinel and the conditional decryption
    (CachedGPPPassword.cs, the body of the loop over files). */
module ExtractionEngine {
  import opened Outcomes
  import opened Strings
  import opened SchemaRegistry
  import opened CipherDecoder

  datatype Attribute = Attribute(name: string, value: string)

  /** A loaded XmlDocument, seen through what the check asks of it: its
      `InnerXml` text and the attributes of the first node each XPath
      selects. An XPath that is not a key selects nothing. */
  datatype XmlDoc = XmlDoc(innerXml: string, nodes: map<string, seq<Attribute>>)

  /** What a file must contain, as text, to be examined at all. */
  const Marker: string := "cpassword"

  /** The sentinel for an empty field. */
  const BlankSentinel: string := "[BLANK]"

  /** The attributes of the node an XPath selects, or `None` (a null node). */
  function SelectSingleNode(doc: XmlDoc, xpath: string): (r: Option<seq<Attribute>>)
    ensures r.None? <==> xpath !in doc.nodes
    ensures r.Some? ==> r.value == doc.nodes[xpath]
  {
    if xpath in doc.nodes then Some(doc.nodes[xpath]) else None
  }

  /** The value a `foreach` leaves in a variable that starts as "" and
      is assigned on every attribute named exactly `name`: the value of the
      last such attribute, or "" if there is none. */
  function LastValue(attrs: seq<Attribute>, name: string): (r: string)
    ensures r == "" || exists i :: 0 <= i < |attrs| && attrs[i].name == name && attrs[i].value == r
  {
    if attrs == [] then ""
    else if attrs[|attrs| - 1].name == name then attrs[|attrs| - 1].value
    else
      var front := attrs[..|attrs| - 1];
      assert forall i :: 0 <= i < |front| ==> front[i] == attrs[i];
      LastValue(front, name)
  }

  /** No attribute of that exact name: the field stays "". */
  lemma {:induction false} LastValueAbsent(attrs: seq<Attribute>, name: string)
    requires forall i :: 0 <= i < |attrs| ==> attrs[i].name != name
    ensures LastValue(attrs, name) == ""
  {
    if attrs != [] {
      LastValueAbsent(attrs[..|attrs| - 1], name);
    }
  }

  /** Attribute `k` has the name and no later one does: the field is its value. */
  lemma {:induction false} LastValueIsLastMatch(attrs: seq<Attribute>, name: string, k: nat)
    requires k < |attrs| && attrs[k].name == name
    requires forall j :: k < j < |attrs| ==> attrs[j].name != name
    ensures LastValue(attrs, name) == attrs[k].value
  {
    if k < |attrs| - 1 {
      LastValueIsLastMatch(attrs[..|attrs| - 1], name, k);
    }
  }

  /** The variable a name-`rename` test assigns, or "" where the schema has no such test. */
  function RenameValue(attrs: seq<Attribute>, rename: Option<string>): string {
    if rename.Some? then LastValue(attrs, rename.value) else ""
  }

  /** The `foreach` over the `Properties` node: one pass assigning
      `cPassword`, `UserName` and, for Groups only, `NewName`. */
  method ReadProperties(attrs: seq<Attribute>, d: Descriptor)
    returns (cPassword: string, userName: string, newName: string)
    ensures cPassword == LastValue(attrs, CredentialAttr)
    ensures userName == LastValue(attrs, d.identityAttr)
    ensures newName == RenameValue(attrs, d.renameAttr)
  {
    cPassword, userName, newName := "", "", "";
    for i := 0 to |attrs|
      invariant cPassword == LastValue(attrs[..i], CredentialAttr)
      invariant userName == LastValue(attrs[..i], d.identityAttr)
      invariant newName == RenameValue(attrs[..i], d.renameAttr)
    {
      var attr := attrs[i];
      assert attrs[..i + 1][..i] == attrs[..i];
      if attr.name == CredentialAttr {
        cPassword := attr.value;
      }
      if attr.name == d.identityAttr {
        userName := attr.value;
      }
      if d.renameAttr == Some(attr.name) {
        newName := attr.value;
      }
    }
    assert attrs[..|attrs|] == attrs;
  }

  /** The `foreach` over the entry node, assigning `Changed`. */
  method ReadChanged(attrs: seq<Attribute>) returns (changed: string)
    ensures changed == LastValue(attrs, ChangedAttr)
  {
    changed := "";
    for i := 0 to |attrs|
      invariant changed == LastValue(attrs[..i], ChangedAttr)
    {
      assert attrs[..i + 1][..i] == attrs[..i];
      if attrs[i].name == ChangedAttr {
        changed := attrs[i].value;
      }
    }
    assert attrs[..|attrs|] == attrs;
  }

  /** One record as the detail line shows it, after normalisation. */
  datatype Record = Record(userName: string, newName: string, cPassword: string, changed: string)

  /** An empty field becomes `[BLANK]`; any other value passes through. */
  function Blank(s: string): (r: string)
    ensures r != ""
    ensures s == "" ==> r == BlankSentinel
    ensures s != "" ==> r == s
  {
    if s == "" then BlankSentinel else s
  }

  /** The three fields that go through `Blank` are never empty. */
  predicate NormalisedRecord(r: Record) {
    r.userName != "" && r.newName != "" && r.changed != ""
  }

  /** What the loop body does with a kind and a loaded document: select the
      two nodes (a missing one throws on `.Attributes`), read their
      attributes, normalise, and decrypt a non-empty `cpassword`. */
  function ExtractRecord(k: SchemaKind, doc: XmlDoc, lib: CryptoLib): (r: Result<Record>)
    ensures DescriptorOf(k).propertiesPath !in doc.nodes || DescriptorOf(k).entryPath !in doc.nodes
      ==> r == Err(NullNode)
    ensures r.Err? && r.fault != NullNode ==>
      DescriptorOf(k).propertiesPath in doc.nodes
      && LastValue(doc.nodes[DescriptorOf(k).propertiesPath], CredentialAttr) != ""
    ensures r.Ok? ==> NormalisedRecord(r.value)
  {
    var d := DescriptorOf(k);
    match SelectSingleNode(doc, d.propertiesPath)
    case None => Err(NullNode)
    case Some(props) =>
      match SelectSingleNode(doc, d.entryPath)
      case None => Err(NullNode)
      case Some(entry) =>
        var userName := Blank(LastValue(props, d.identityAttr));
        var newName := Blank(RenameValue(props, d.renameAttr));
        var raw := LastValue(props, CredentialAttr);
        var changed := Blank(LastValue(entry, ChangedAttr));
        if raw == "" then Ok(Record(userName, newName, BlankSentinel, changed))
        else
          match DecryptGpp(raw, lib)
          case Err(f) => Err(f)
          case Ok(plain) => Ok(Record(userName, newName, plain, changed))
  }

  /** The loop body from node selection to the finished record. */
  method ReadRecord(k: SchemaKind, doc: XmlDoc, lib: CryptoLib) returns (res: Result<Record>)
    ensures res == ExtractRecord(k, doc, lib)
  {
    var d := DescriptorOf(k);
    var a := SelectSingleNode(doc, d.propertiesPath);
    var b := SelectSingleNode(doc, d.entryPath);
    if a.None? {
      return Err(NullNode);
    }
    var cPassword, userName, newName := ReadProperties(a.value, d);
    if b.None? {
      return Err(NullNode);
    }
    var changed := ReadChanged(b.value);
    userName := Blank(userName);
    newName := Blank(newName);
    if cPassword == "" {
      cPassword := BlankSentinel;
    } else {
      var plain := DecryptGpp(cPassword, lib);
      if plain.Err? {
        return Err(plain.fault);
      }
      cPassword := plain.value;
    }
    changed := Blank(changed);
    res := Ok(Record(userName, newName, cPassword, changed));
  }

  /** The user name and, for Groups, the new name come from the kind's own
      attributes of the first `Properties` node, and `changed` from the
      first entry node, which need not be that node's parent. */
  lemma {:induction false} ExtractedIdentity(k: SchemaKind, doc: XmlDoc, lib: CryptoLib)
    requires ExtractRecord(k, doc, lib).Ok?
    ensures DescriptorOf(k).propertiesPath in doc.nodes && DescriptorOf(k).entryPath in doc.nodes
    ensures var r := ExtractRecord(k, doc, lib).value;
      var props := doc.nodes[DescriptorOf(k).propertiesPath];
      var entry := doc.nodes[DescriptorOf(k).entryPath];
      r.userName == Blank(LastValue(props, DescriptorOf(k).identityAttr))
      && r.newName == Blank(RenameValue(props, DescriptorOf(k).renameAttr))
      && (k == Groups ==> DescriptorOf(k).renameAttr == Some("newName"))
      && r.changed == Blank(LastValue(entry, ChangedAttr))
      && DescriptorOf(k).identityAttr ==
        (match k
         case Groups => "userName"
         case Services => "accountName"
         case ScheduledTasks => "runAs"
         case _ => "username")
  {
  }

  /** A user name or timestamp attribute that the node does not carry
      shows as `[BLANK]`. */
  lemma {:induction false} MissingFieldsShowBlank(k: SchemaKind, doc: XmlDoc, lib: CryptoLib)
    requires DescriptorOf(k).propertiesPath in doc.nodes && DescriptorOf(k).entryPath in doc.nodes
    requires ExtractRecord(k, doc, lib).Ok?
    ensures var props := doc.nodes[DescriptorOf(k).propertiesPath];
      (forall i :: 0 <= i < |props| ==> props[i].name != DescriptorOf(k).identityAttr)
      ==> ExtractRecord(k, doc, lib).value.userName == BlankSentinel
    ensures var entry := doc.nodes[DescriptorOf(k).entryPath];
      (forall i :: 0 <= i < |entry| ==> entry[i].name != ChangedAttr)
      ==> ExtractRecord(k, doc, lib).value.changed == BlankSentinel
  {
    var d := DescriptorOf(k);
    var props := doc.nodes[d.propertiesPath];
    var entry := doc.nodes[d.entryPath];
    if forall i :: 0 <= i < |props| ==> props[i].name != d.identityAttr {
      LastValueAbsent(props, d.identityAttr);
    }
    if forall i :: 0 <= i < |entry| ==> entry[i].name != ChangedAttr {
      LastValueAbsent(entry, ChangedAttr);
    }
  }

  /** Only Groups reads a new name; every other kind shows `[BLANK]`. */
  lemma NewNameBlankOutsideGroups(k: SchemaKind, doc: XmlDoc, lib: CryptoLib)
    requires k != Groups && ExtractRecord(k, doc, lib).Ok?
    ensures ExtractRecord(k, doc, lib).value.newName == BlankSentinel
  {
  }

  /** An empty `cpassword` gives `[BLANK]` and the crypto library is never
      consulted (any two libraries give the same outcome); a non-empty one
      is replaced by exactly what `DecryptGpp` returns, and a decryption
      failure fails the whole record. */
  lemma {:induction false} PasswordDecryptedIffPresent(k: SchemaKind, doc: XmlDoc, lib: CryptoLib, other: CryptoLib)
    requires DescriptorOf(k).propertiesPath in doc.nodes && DescriptorOf(k).entryPath in doc.nodes
    ensures var raw := LastValue(doc.nodes[DescriptorOf(k).propertiesPath], CredentialAttr);
      var res := ExtractRecord(k, doc, lib);
      && (raw == "" ==> res.Ok? && res.value.cPassword == BlankSentinel
                        && res == ExtractRecord(k, doc, other))
      && (raw != "" ==> (res.Ok? <==> DecryptGpp(raw, lib).Ok?)
                        && (res.Ok? ==> res.value.cPassword == DecryptGpp(raw, lib).value))
  {
  }

  /** The password field is the one field `Blank` does not guard: a
      non-empty `cpassword` whose plaintext is empty shows as "". */
  lemma EmptyPlaintextShowsEmpty()
    ensures var doc := XmlDoc("<Groups><User><Properties cpassword=\"AAAA\"/></User></Groups>",
        map["/Groups/User/Properties" := [Attribute("cpassword", "AAAA")], "/Groups/User" := []]);
      var lib := CryptoLib(_ => Some([]), (_, _, _) => Some([]), _ => "");
      ExtractRecord(Groups, doc, lib) == Ok(Record(BlankSentinel, BlankSentinel, "", BlankSentinel))
  {
  }
}
