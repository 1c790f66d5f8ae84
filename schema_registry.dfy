/** Which cached Group Policy Preference files the check looks at, which
    schema each one is read with, and where in that schema the credential
    and its metadata live (CachedGPPPassword.cs, the name filter and the
    six-way `if`/`else if` chain of the constructor). */
module SchemaRegistry {
  import opened Outcomes
  import opened Strings

  datatype SchemaKind = Groups | Services | ScheduledTasks | DataSources | Printers | Drives

  /** The file name each branch tests for, exactly as the source spells it. */
  function FileName(k: SchemaKind): string {
    match k
    case Groups => "Groups.xml"
    case Services => "Services.xml"
    case ScheduledTasks => "Scheduledtasks.xml"
    case DataSources => "DataSources.xml"
    case Printers => "Printers.xml"
    case Drives => "Drives.xml"
  }

  /** Position of a kind in the order the branches are tested. */
  function Rank(k: SchemaKind): nat {
    match k
    case Groups => 0
    case Services => 1
    case ScheduledTasks => 2
    case DataSources => 3
    case Printers => 4
    case Drives => 5
  }

  /** The name filter: a path is looked at only if one of the six names occurs in it. */
  predicate IsCandidate(path: string): (b: bool)
    ensures b <==> exists k :: Contains(path, FileName(k))
  {
    NamedPathHasKind(path);
    Contains(path, "Groups.xml") || Contains(path, "Services.xml")
    || Contains(path, "Scheduledtasks.xml") || Contains(path, "DataSources.xml")
    || Contains(path, "Printers.xml") || Contains(path, "Drives.xml")
  }

  /** The branch chain: the first of five names that occurs decides, and
      everything else is read as a Drives file. */
  function Dispatch(path: string): (d: SchemaKind)
    ensures d != Drives ==> Contains(path, FileName(d))
    ensures Contains(path, FileName(Groups)) ==> d == Groups
  {
    if Contains(path, "Groups.xml") then Groups
    else if Contains(path, "Services.xml") then Services
    else if Contains(path, "Scheduledtasks.xml") then ScheduledTasks
    else if Contains(path, "DataSources.xml") then DataSources
    else if Contains(path, "Printers.xml") then Printers
    else Drives
  }

  /** The six names the filter tests are the six kinds' names. */
  lemma NamedPathHasKind(path: string)
    ensures (exists k :: Contains(path, FileName(k))) <==>
      Contains(path, "Groups.xml") || Contains(path, "Services.xml")
      || Contains(path, "Scheduledtasks.xml") || Contains(path, "DataSources.xml")
      || Contains(path, "Printers.xml") || Contains(path, "Drives.xml")
  {
    if exists k :: Contains(path, FileName(k)) {
      var k :| Contains(path, FileName(k));
      match k
      case Groups =>
      case Services =>
      case ScheduledTasks =>
      case DataSources =>
      case Printers =>
      case Drives =>
    }
    assert FileName(Groups) == "Groups.xml" && FileName(Services) == "Services.xml";
    assert FileName(ScheduledTasks) == "Scheduledtasks.xml" && FileName(DataSources) == "DataSources.xml";
    assert FileName(Printers) == "Printers.xml" && FileName(Drives) == "Drives.xml";
  }

  /** Filter and chain together: `None` for a skipped file, otherwise the
      kind whose name occurs first in branch order. */
  function Classify(path: string): (r: Option<SchemaKind>)
    ensures r.None? <==> forall k :: !Contains(path, FileName(k))
    ensures r.Some? ==> Contains(path, FileName(r.value))
    ensures r.Some? ==> forall k :: Rank(k) < Rank(r.value) ==> !Contains(path, FileName(k))
  {
    if !IsCandidate(path) then None
    else
      DispatchNameOccurs(path);
      assert Contains(path, FileName(Dispatch(path)));
      Some(Dispatch(path))
  }

  /** The first-match rule, both ways: a path goes to kind `k` exactly when
      the earlier kinds' names are all absent and, unless `k` is the
      Drives fall-through, `k`'s own name is present. */
  lemma DispatchIsFirstMatch(path: string, k: SchemaKind)
    ensures Dispatch(path) == k <==>
      (k != Drives ==> Contains(path, FileName(k)))
      && forall j :: Rank(j) < Rank(k) ==> !Contains(path, FileName(j))
  {
    var d := Dispatch(path);
    DispatchNameOccurs(path);
    if d != k {
      if Rank(d) < Rank(k) {
        // d's name occurs although it comes before k
      } else {
        assert Rank(k) < Rank(d);
        // k's name occurs although d was chosen after k
      }
    }
  }

  /** The kind chosen comes after every kind whose name is absent, and its
      own name occurs unless it is the Drives fall-through. */
  lemma DispatchNameOccurs(path: string)
    ensures Dispatch(path) != Drives ==> Contains(path, FileName(Dispatch(path)))
    ensures forall j :: Rank(j) < Rank(Dispatch(path)) ==> !Contains(path, FileName(j))
  {
    forall j | Rank(j) < Rank(Dispatch(path))
      ensures !Contains(path, FileName(j))
    {
      match j
      case Groups =>
      case Services =>
      case ScheduledTasks =>
      case DataSources =>
      case Printers =>
      case Drives =>
    }
  }

  /** A path holding only one of the six names is classified with that name's kind. */
  lemma {:induction false} SoleNameDecides(path: string, k: SchemaKind)
    requires Contains(path, FileName(k))
    requires forall j :: j != k ==> !Contains(path, FileName(j))
    ensures Classify(path) == Some(k)
  {
    DispatchIsFirstMatch(path, k);
  }

  /** A concrete path naming both Printers.xml and Groups.xml is read as Groups. */
  lemma GroupsBeatsPrinters()
    ensures Classify("C:\\h\\Printers.xml\\Groups.xml") == Some(Groups)
  {
    var p := "C:\\h\\Printers.xml\\Groups.xml";
    assert OccursAt(p, "Groups.xml", 18);
  }

  /** The two XPaths each schema selects and which attributes name the user.
      The two `SelectSingleNode` calls are independent: the first
      `Properties` node under any entry node, and the first entry node,
      which need not be its parent. */
  datatype Descriptor = Descriptor(
    entryPath: string,         // node holding the `changed` attribute
    propertiesPath: string,    // node holding `cpassword` and the user name
    identityAttr: string,      // attribute read as the user name
    renameAttr: Option<string> // attribute read as the new name, if any
  )

  /** The credential attribute, the same in every schema. */
  const CredentialAttr: string := "cpassword"
  /** The timestamp attribute, read from the entry node in every schema. */
  const ChangedAttr: string := "changed"

  function DescriptorOf(k: SchemaKind): (d: Descriptor)
    ensures d.propertiesPath == d.entryPath + "/Properties"
    ensures d.renameAttr.Some? <==> k == Groups
  {
    match k
    case Groups => Descriptor("/Groups/User", "/Groups/User/Properties", "userName", Some("newName"))
    case Services => Descriptor("/NTServices/NTService", "/NTServices/NTService/Properties", "accountName", None)
    case ScheduledTasks => Descriptor("/ScheduledTasks/Task", "/ScheduledTasks/Task/Properties", "runAs", None)
    case DataSources => Descriptor("/DataSources/DataSource", "/DataSources/DataSource/Properties", "username", None)
    case Printers => Descriptor("/Printers/SharedPrinter", "/Printers/SharedPrinter/Properties", "username", None)
    case Drives => Descriptor("/Drives/Drive", "/Drives/Drive/Properties", "username", None)
  }
}
