/** One address-book record as read from the LDIF export (the LDIFEntry
    struct), and the fixed, case-sensitive set of attribute names that fill
    its fields. */
module LdifRecord {
  import opened Text
  import opened Sequences

  datatype LdifEntry = LdifEntry(
    dn: string,
    objectClass: string,
    sn: string,
    cn: string,
    ou: string,
    title: string,
    mail: string,
    givenName: string,
    initials: string,
    telephoneNumber: string,
    l: string,
    postalAddress: string,
    o: string)

  /** The zero value LDIFEntry{}: every field absent, that is empty. */
  const Empty := LdifEntry("", "", "", "", "", "", "", "", "", "", "", "", "")

  /** The fields of a record that an attribute line can fill. */
  datatype Field = Dn | ObjectClass | Sn | Cn | Ou | Title | Mail | GivenName
                 | Initials | TelephoneNumber | L | PostalAddress | O

  /** The switch on the attribute name: the recognised names, matched
      case-sensitively ("objectclass" is recognised, "objectClass" is not). */
  function FieldOf(key: string): (f: Option<Field>)
    ensures f == Some(Dn) <==> key == "dn"
    ensures f == Some(ObjectClass) <==> key == "objectclass"
  {
    if key == "dn" then Some(Dn)
    else if key == "objectclass" then Some(ObjectClass)
    else if key == "sn" then Some(Sn)
    else if key == "cn" then Some(Cn)
    else if key == "ou" then Some(Ou)
    else if key == "title" then Some(Title)
    else if key == "mail" then Some(Mail)
    else if key == "givenName" then Some(GivenName)
    else if key == "initials" then Some(Initials)
    else if key == "telephoneNumber" then Some(TelephoneNumber)
    else if key == "l" then Some(L)
    else if key == "postalAddress" then Some(PostalAddress)
    else if key == "o" then Some(O)
    else None
  }

  /** The thirteen recognised attribute names. */
  const Keys: seq<string> := ["dn", "objectclass", "sn", "cn", "ou", "title", "mail",
                              "givenName", "initials", "telephoneNumber", "l",
                              "postalAddress", "o"]

  function Get(e: LdifEntry, f: Field): string {
    match f
    case Dn => e.dn
    case ObjectClass => e.objectClass
    case Sn => e.sn
    case Cn => e.cn
    case Ou => e.ou
    case Title => e.title
    case Mail => e.mail
    case GivenName => e.givenName
    case Initials => e.initials
    case TelephoneNumber => e.telephoneNumber
    case L => e.l
    case PostalAddress => e.postalAddress
    case O => e.o
  }

  /** Overwrites one field and leaves the others as they were. */
  function Put(e: LdifEntry, f: Field, value: string): (r: LdifEntry)
    ensures Get(r, f) == value
    ensures forall g :: g != f ==> Get(r, g) == Get(e, g)
  {
    match f
    case Dn => e.(dn := value)
    case ObjectClass => e.(objectClass := value)
    case Sn => e.(sn := value)
    case Cn => e.(cn := value)
    case Ou => e.(ou := value)
    case Title => e.(title := value)
    case Mail => e.(mail := value)
    case GivenName => e.(givenName := value)
    case Initials => e.(initials := value)
    case TelephoneNumber => e.(telephoneNumber := value)
    case L => e.(l := value)
    case PostalAddress => e.(postalAddress := value)
    case O => e.(o := value)
  }

  /** Two records that agree on every field are the same record. */
  lemma {:induction false} Extensionality(a: LdifEntry, b: LdifEntry)
    requires forall f :: Get(a, f) == Get(b, f)
    ensures a == b
  {
    assert Get(a, Dn) == Get(b, Dn) && Get(a, ObjectClass) == Get(b, ObjectClass);
    assert Get(a, Sn) == Get(b, Sn) && Get(a, Cn) == Get(b, Cn) && Get(a, Ou) == Get(b, Ou);
    assert Get(a, Title) == Get(b, Title) && Get(a, Mail) == Get(b, Mail);
    assert Get(a, GivenName) == Get(b, GivenName) && Get(a, Initials) == Get(b, Initials);
    assert Get(a, TelephoneNumber) == Get(b, TelephoneNumber) && Get(a, L) == Get(b, L);
    assert Get(a, PostalAddress) == Get(b, PostalAddress) && Get(a, O) == Get(b, O);
  }

  /** One "key: value" line applied to the record: a recognised name
      overwrites its field, any other name leaves the record as it was. */
  function Set(e: LdifEntry, key: string, value: string): (r: LdifEntry)
    ensures FieldOf(key).Some? ==> Get(r, FieldOf(key).value) == value
    ensures forall g :: Some(g) != FieldOf(key) ==> Get(r, g) == Get(e, g)
    ensures FieldOf(key).None? ==> r == e
  {
    match FieldOf(key)
    case None => e
    case Some(f) => Put(e, f, value)
  }

  /** A repeated attribute overwrites the earlier value. */
  lemma PutOverwrites(e: LdifEntry, f: Field, v1: string, v2: string)
    ensures Put(Put(e, f, v1), f, v2) == Put(e, f, v2)
  {
    Extensionality(Put(Put(e, f, v1), f, v2), Put(e, f, v2));
  }

  /** Attributes of different fields can be given in either order. */
  lemma PutCommutes(e: LdifEntry, f1: Field, v1: string, f2: Field, v2: string)
    requires f1 != f2
    ensures Put(Put(e, f1, v1), f2, v2) == Put(Put(e, f2, v2), f1, v1)
  {
    Extensionality(Put(Put(e, f1, v1), f2, v2), Put(Put(e, f2, v2), f1, v1));
  }

  /** The attribute name a field is written under when the record is sent
      to the directory or exported: the LDAP spelling, which for the object
      class is "objectClass". */
  function Name(f: Field): string {
    match f
    case Dn => "dn"
    case ObjectClass => "objectClass"
    case Sn => "sn"
    case Cn => "cn"
    case Ou => "ou"
    case Title => "title"
    case Mail => "mail"
    case GivenName => "givenName"
    case Initials => "initials"
    case TelephoneNumber => "telephoneNumber"
    case L => "l"
    case PostalAddress => "postalAddress"
    case O => "o"
  }

  /** Every written name except "objectClass" is read back as its own
      field; the parser only knows the lower-case "objectclass". */
  lemma NameReadBack(f: Field)
    ensures f != ObjectClass ==> FieldOf(Name(f)) == Some(f)
    ensures f == ObjectClass ==> FieldOf(Name(f)).None?
  {
  }

  /** The switch recognises exactly the thirteen names of Keys, and each
      recognised name selects the field it names: its own written name, or
      the lower-case "objectclass" for the object class. */
  lemma FieldOfRecognised(key: string)
    ensures FieldOf(key).Some? <==> key in Keys
    ensures FieldOf(key).Some? ==>
              key == (if FieldOf(key).value == ObjectClass then "objectclass" else Name(FieldOf(key).value))
  {
  }

  /** Different fields are written under different names. */
  lemma NameInjective(f: Field, g: Field)
    requires f != g
    ensures Name(f) != Name(g)
  {
    NameReadBack(f);
    NameReadBack(g);
  }

  /** The written names are plain words: non-empty, without white space or
      ':', and not starting with '#'. */
  lemma NameShape(f: Field)
    ensures Name(f) != [] && Name(f)[0] != '#' && Trimmed(Name(f)) && ':' !in Name(f)
  {
  }

  /** The fields among fs that hold a non-empty value, in the order of fs. */
  function Filled(e: LdifEntry, fs: seq<Field>): (r: seq<Field>)
    ensures forall f :: f in r <==> f in fs && Get(e, f) != []
    ensures |r| <= |fs|
    ensures NoDuplicates(fs) ==> NoDuplicates(r)
  {
    if fs == [] then []
    else
      var init := Filled(e, fs[..|fs| - 1]);
      var last := fs[|fs| - 1];
      assert forall f :: f in fs <==> f in fs[..|fs| - 1] || f == last;
      if Get(e, last) != [] then init + [last] else init
  }

  /** Filled keeps the order of fs. */
  lemma {:induction false} FilledInOrder(e: LdifEntry, fs: seq<Field>)
    ensures KeepsOrder(Filled(e, fs), fs)
  {
    if fs != [] {
      var prefix := fs[..|fs| - 1];
      var last := fs[|fs| - 1];
      var init := Filled(e, prefix);
      FilledInOrder(e, prefix);
      KeepsOrderAppend(init, prefix, last);
      assert prefix + [last] == fs;
    }
  }
}
