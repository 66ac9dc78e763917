/**
 * The found-item form: the form record and its updates (a typed field, a chosen
 * photo, the signed-in user's identity, the reset after a successful submission),
 * the checks run before submitting (photo present, optional phone of 10 to 15
 * digits), and the multipart field list built from the record.
 */
module FoundForm {
  import opened Wrappers
  import Seqs

  /** A file picked in the file input. */
  datatype File = File(name: string)

  /** The form state; `phone`, `hintAnswer` and `notes` are optional, `photo` may be null. */
  datatype FormRecord = FormRecord(
    itemName: string, category: string, foundBy: string, email: string, name: string,
    phone: Option<string>, place: string, datetime: string, description: string,
    photo: Option<File>, hintQuestion: string, hintAnswer: Option<string>, notes: Option<string>)

  datatype Field =
    ItemName | Category | FoundBy | Email | Name | Phone | Place | Datetime
    | Description | Photo | HintQuestion | HintAnswer | Notes

  /** The record's keys in the order the initial object literal lists them, which is the order `Object.entries` visits them. */
  const FieldOrder: seq<Field> :=
    [ItemName, Category, FoundBy, Email, Name, Phone, Place, Datetime,
     Description, Photo, HintQuestion, HintAnswer, Notes]

  function Key(f: Field): string
  {
    match f
    case ItemName => "itemName"
    case Category => "category"
    case FoundBy => "foundBy"
    case Email => "email"
    case Name => "name"
    case Phone => "phone"
    case Place => "place"
    case Datetime => "datetime"
    case Description => "description"
    case Photo => "photo"
    case HintQuestion => "hintQuestion"
    case HintAnswer => "hintAnswer"
    case Notes => "notes"
  }

  /** Position of a field in the key order. */
  function FieldIndex(f: Field): (k: nat)
    ensures k < |FieldOrder| && FieldOrder[k] == f
  {
    match f
    case ItemName => 0
    case Category => 1
    case FoundBy => 2
    case Email => 3
    case Name => 4
    case Phone => 5
    case Place => 6
    case Datetime => 7
    case Description => 8
    case Photo => 9
    case HintQuestion => 10
    case HintAnswer => 11
    case Notes => 12
  }

  /** Each field sits at its own position of the key order. */
  lemma FieldIndexOfPosition(i: nat)
    requires i < |FieldOrder|
    ensures FieldIndex(FieldOrder[i]) == i
  {
  }

  /** Different fields have different keys. */
  lemma KeyInjective(f: Field, g: Field)
    ensures Key(f) == Key(g) ==> f == g
  {
  }

  lemma AllKeysDistinct()
    ensures Seqs.NoDuplicates(AllKeys())
  {
    forall i, j | 0 <= i < j < |AllKeys()|
      ensures AllKeys()[i] != AllKeys()[j]
    {
      FieldIndexOfPosition(i);
      FieldIndexOfPosition(j);
      KeyInjective(FieldOrder[i], FieldOrder[j]);
    }
  }

  /** A field's value as JavaScript sees it. */
  datatype Value = Undefined | Null | Text(text: string) | Upload(file: File)

  function Get(d: FormRecord, f: Field): Value
  {
    match f
    case ItemName => Text(d.itemName)
    case Category => Text(d.category)
    case FoundBy => Text(d.foundBy)
    case Email => Text(d.email)
    case Name => Text(d.name)
    case Phone => if d.phone.Some? then Text(d.phone.value) else Undefined
    case Place => Text(d.place)
    case Datetime => Text(d.datetime)
    case Description => Text(d.description)
    case Photo => if d.photo.Some? then Upload(d.photo.value) else Null
    case HintQuestion => Text(d.hintQuestion)
    case HintAnswer => if d.hintAnswer.Some? then Text(d.hintAnswer.value) else Undefined
    case Notes => if d.notes.Some? then Text(d.notes.value) else Undefined
  }

  /** The record the form starts with; `now` is the current time as the datetime input shows it. */
  function InitialRecord(now: string): FormRecord
  {
    FormRecord("", "", "", "", "", Some(""), "", now, "", None, "", Some(""), Some(""))
  }

  // ---------------------------------------------------------------- record updates

  /** `{ ...prev, [name]: value }` for one of the record's text fields. */
  function SetText(d: FormRecord, f: Field, value: string): FormRecord
    requires f != Photo
  {
    match f
    case ItemName => d.(itemName := value)
    case Category => d.(category := value)
    case FoundBy => d.(foundBy := value)
    case Email => d.(email := value)
    case Name => d.(name := value)
    case Phone => d.(phone := Some(value))
    case Place => d.(place := value)
    case Datetime => d.(datetime := value)
    case Description => d.(description := value)
    case HintQuestion => d.(hintQuestion := value)
    case HintAnswer => d.(hintAnswer := Some(value))
    case Notes => d.(notes := Some(value))
  }

  /** `handleChange` sets the named field to the typed text and leaves every other field as it was. */
  lemma SetTextChangesOnlyThatField(d: FormRecord, f: Field, value: string, g: Field)
    requires f != Photo
    ensures Get(SetText(d, f, value), g) == if g == f then Text(value) else Get(d, g)
  {
  }

  /** The signed-in user as the identity provider describes it. */
  datatype User = User(id: Option<string>, primaryEmail: Option<string>, fullName: Option<string>)

  predicate IsIdentityField(f: Field)
  {
    f == FoundBy || f == Email || f == Name
  }

  function WithIdentity(d: FormRecord, u: User): FormRecord
  {
    d.(foundBy := OrEmpty(u.id), email := OrEmpty(u.primaryEmail), name := OrEmpty(u.fullName))
  }

  /** The prefill sets `foundBy`, `email`, `name` from the user, falling back to '', and touches nothing else. */
  lemma IdentityPrefill(d: FormRecord, u: User, f: Field)
    ensures Get(WithIdentity(d, u), FoundBy) == Text(if u.id.Some? then u.id.value else "")
    ensures Get(WithIdentity(d, u), Email) == Text(if u.primaryEmail.Some? then u.primaryEmail.value else "")
    ensures Get(WithIdentity(d, u), Name) == Text(if u.fullName.Some? then u.fullName.value else "")
    ensures !IsIdentityField(f) ==> Get(WithIdentity(d, u), f) == Get(d, f)
  {
  }

  /** The record after a successful submission. */
  function ClearedAfterSubmit(d: FormRecord, now: string): FormRecord
  {
    d.(itemName := "", category := "", phone := Some(""), place := "", datetime := now,
       description := "", photo := None, hintQuestion := "", hintAnswer := Some(""), notes := Some(""))
  }

  /**
   * After a successful submission the identity fields keep their values and every
   * other field is back to its initial value, the datetime being the current time.
   */
  lemma ResetKeepsOnlyIdentity(d: FormRecord, now: string, f: Field)
    ensures IsIdentityField(f) ==> Get(ClearedAfterSubmit(d, now), f) == Get(d, f)
    ensures !IsIdentityField(f) ==> Get(ClearedAfterSubmit(d, now), f) == Get(InitialRecord(now), f)
  {
  }

  // ---------------------------------------------------------------- validation

  predicate IsDigit(c: char)
  {
    '0' <= c <= '9'
  }

  /** Whether `s` matches `^\d{min,max}$`, one character at a time. */
  function MatchesDigitRun(s: string, min: nat, max: nat): (r: bool)
    ensures r <==> min <= |s| <= max && forall i :: 0 <= i < |s| ==> IsDigit(s[i])
    decreases |s|
  {
    if s == [] then min == 0
    else
      var rest := MatchesDigitRun(s[1..], if min > 0 then min - 1 else 0, if max > 0 then max - 1 else 0);
      assert forall i :: 1 <= i < |s| ==> s[i] == s[1..][i - 1];
      max > 0 && IsDigit(s[0]) && rest
  }

  /** `/^\d{10,15}$/.test(phone)`. */
  predicate IsValidPhone(phone: string)
  {
    MatchesDigitRun(phone, 10, 15)
  }

  datatype Check = Passed | PhotoMissing | PhoneInvalid

  /** The checks `handleSubmit` runs before any request: the photo first, then a non-empty phone. */
  function Validate(d: FormRecord): Check
  {
    if d.photo.None? then PhotoMissing
    else if d.phone.Some? && d.phone.value != "" && !IsValidPhone(d.phone.value) then PhoneInvalid
    else Passed
  }

  function RejectionMessage(c: Check): string
  {
    match c
    case PhotoMissing => "Please upload a photo!"
    case PhoneInvalid => "Please enter a valid phone number"
    case Passed => ""
  }

  /**
   * A record passes exactly when it has a photo and its phone is missing, empty,
   * or 10 to 15 decimal digits; a missing photo is reported whatever the phone.
   */
  lemma ValidateAcceptsExactly(d: FormRecord)
    ensures Validate(d) == Passed <==>
      d.photo.Some? &&
      (d.phone.None? || d.phone.value == "" ||
       (10 <= |d.phone.value| <= 15 && forall i :: 0 <= i < |d.phone.value| ==> '0' <= d.phone.value[i] <= '9'))
    ensures Validate(d) == PhotoMissing <==> d.photo.None?
  {
  }

  /** A record just reset has no photo, so it is refused until a new photo is chosen. */
  lemma ResetRecordNeedsNewPhoto(d: FormRecord, now: string)
    ensures Validate(ClearedAfterSubmit(d, now)) == PhotoMissing
  {
  }

  /** The text inputs marked `required` have a value: item name, category, place, datetime, description, hint question. */
  predicate RequiredTextFilled(d: FormRecord)
  {
    && d.itemName != "" && d.category != "" && d.place != ""
    && d.datetime != "" && d.description != "" && d.hintQuestion != ""
  }

  /**
   * Whether the browser fires the form's submit event at all: the submit button is
   * disabled while loading, and constraint validation blocks an empty required text
   * input or a required file input holding no file (`fileChosen`).
   */
  predicate SubmitAllowed(d: FormRecord, fileChosen: bool, loading: bool)
  {
    !loading && fileChosen && RequiredTextFilled(d)
  }

  /** A record just reset has empty required inputs, so the browser refuses to submit it as it stands. */
  lemma ResetRecordNotSubmittable(d: FormRecord, now: string, fileChosen: bool)
    ensures !SubmitAllowed(ClearedAfterSubmit(d, now), fileChosen, false)
  {
  }

  // ---------------------------------------------------------------- the multipart field list

  /** One `formData.append(key, value)` call; the key is the name `Key(field)`. */
  datatype Part = TextPart(field: Field, text: string) | FilePart(field: Field, file: File)

  /** What one `[key, value]` entry contributes: nothing for undefined or null, the file for the photo, otherwise `String(value)`. */
  function PartFor(f: Field, v: Value): Option<Part>
  {
    match v
    case Undefined => None
    case Null => None
    case Text(s) => Some(TextPart(f, s))
    case Upload(file) => if f == Photo then Some(FilePart(f, file)) else Some(TextPart(f, "[object File]"))
  }

  lemma PartForKey(f: Field, v: Value)
    ensures PartFor(f, v).Some? ==> PartFor(f, v).value.field == f
  {
  }

  /** `Object.entries(data)`. */
  function Entries(d: FormRecord): (es: seq<(Field, Value)>)
    ensures |es| == |FieldOrder|
    ensures forall i :: 0 <= i < |es| ==> es[i] == (FieldOrder[i], Get(d, FieldOrder[i]))
  {
    seq(|FieldOrder|, i requires 0 <= i < |FieldOrder| => (FieldOrder[i], Get(d, FieldOrder[i])))
  }

  /** The parts appended for a run of entries, in entry order. */
  function SerialiseEntries(es: seq<(Field, Value)>): seq<Part>
  {
    if es == [] then []
    else
      var last := es[|es| - 1];
      var p := PartFor(last.0, last.1);
      SerialiseEntries(es[..|es| - 1]) + (if p.Some? then [p.value] else [])
  }

  function Serialise(d: FormRecord): seq<Part>
  {
    SerialiseEntries(Entries(d))
  }

  /** The `forEach` loop that fills the `FormData`. */
  method BuildFormData(d: FormRecord) returns (parts: seq<Part>)
    ensures parts == Serialise(d)
  {
    var entries := Entries(d);
    parts := [];
    var i := 0;
    while i < |entries|
      invariant 0 <= i <= |entries|
      invariant parts == SerialiseEntries(entries[..i])
    {
      var (key, value) := entries[i];
      match value {
        case Undefined =>
        case Null =>
        case Text(s) =>
          parts := parts + [TextPart(key, s)];
        case Upload(file) =>
          if key == Photo {
            parts := parts + [FilePart(key, file)];
          } else {
            parts := parts + [TextPart(key, "[object File]")];
          }
      }
      assert entries[..i + 1][..i] == entries[..i];
      i := i + 1;
    }
    assert entries[..i] == entries;
  }

  function PartKeys(ps: seq<Part>): (ks: seq<string>)
    ensures |ks| == |ps| && forall i :: 0 <= i < |ps| ==> ks[i] == Key(ps[i].field)
  {
    seq(|ps|, i requires 0 <= i < |ps| => Key(ps[i].field))
  }

  function AllKeys(): (ks: seq<string>)
    ensures |ks| == |FieldOrder| && forall i :: 0 <= i < |FieldOrder| ==> ks[i] == Key(FieldOrder[i])
  {
    seq(|FieldOrder|, i requires 0 <= i < |FieldOrder| => Key(FieldOrder[i]))
  }

  /** The first part appended under the key of `f`, as `formData.get(Key(f))` would find it (keys are distinct per field). */
  function Lookup(ps: seq<Part>, f: Field): Option<Part>
  {
    if ps == [] then None
    else if ps[0].field == f then Some(ps[0])
    else Lookup(ps[1..], f)
  }

  lemma {:induction false} LookupAppend(a: seq<Part>, b: seq<Part>, key: Field)
    ensures Lookup(a + b, key) == if Lookup(a, key).Some? then Lookup(a, key) else Lookup(b, key)
    decreases |a|
  {
    if a != [] {
      assert (a + b)[1..] == a[1..] + b;
      LookupAppend(a[1..], b, key);
    } else {
      assert a + b == b;
    }
  }

  /** Appending at most one part, under the key of `g`, changes only the lookup of `g`, and only if it was absent. */
  lemma LookupSnoc(before: seq<Part>, p: Option<Part>, g: Field, f: Field)
    requires p.Some? ==> p.value.field == g
    ensures Lookup(before + (if p.Some? then [p.value] else []), f)
         == if Lookup(before, f).Some? then Lookup(before, f) else if f == g then p else None
  {
    var tail := if p.Some? then [p.value] else [];
    LookupAppend(before, tail, f);
  }

  predicate DistinctFields(es: seq<(Field, Value)>)
  {
    forall i, j :: 0 <= i < j < |es| ==> es[i].0 != es[j].0
  }

  /** In a run of entries for distinct fields, the part under a field's key is that field's entry's contribution, or none. */
  lemma {:induction false} LookupEntries(es: seq<(Field, Value)>, f: Field, k: nat)
    requires DistinctFields(es)
    ensures k < |es| && es[k].0 == f ==> Lookup(SerialiseEntries(es), f) == PartFor(f, es[k].1)
    ensures (forall i :: 0 <= i < |es| ==> es[i].0 != f) ==> Lookup(SerialiseEntries(es), f) == None
  {
    if es != [] {
      var n := |es|;
      var init := es[..n - 1];
      var g := es[n - 1].0;
      var p := PartFor(g, es[n - 1].1);
      var before := SerialiseEntries(init);
      assert Lookup(SerialiseEntries(es), f)
          == if Lookup(before, f).Some? then Lookup(before, f) else if f == g then p else None by {
        PartForKey(g, es[n - 1].1);
        LookupSnoc(before, p, g, f);
      }
      assert DistinctFields(init);
      if k < n - 1 && es[k].0 == f {
        LookupEntries(init, f, k);
        assert init[k] == es[k];
        assert f != g;
      } else if k == n - 1 && es[k].0 == f {
        assert forall i :: 0 <= i < |init| ==> init[i].0 != f;
        LookupEntries(init, f, k);
      } else if forall i :: 0 <= i < |es| ==> es[i].0 != f {
        assert forall i :: 0 <= i < |init| ==> init[i].0 != f;
        LookupEntries(init, f, k);
      }
    }
  }

  /** The part under a field's key is the photo as a file, any other value as its text, and none for an undefined or null value. */
  lemma SerialisedLookup(d: FormRecord, f: Field)
    ensures Lookup(Serialise(d), f) == PartFor(f, Get(d, f))
  {
    var es := Entries(d);
    forall i, j | 0 <= i < j < |es|
      ensures es[i].0 != es[j].0
    {
      FieldIndexOfPosition(i);
      FieldIndexOfPosition(j);
    }
    LookupEntries(es, f, FieldIndex(f));
  }

  lemma PartKeysSnoc(ps: seq<Part>, tail: seq<Part>)
    requires |tail| <= 1
    ensures PartKeys(ps + tail) == PartKeys(ps) + PartKeys(tail)
  {
  }

  /** The keys of a run of entries, in order. */
  function EntryKeys(es: seq<(Field, Value)>): (ks: seq<string>)
    ensures |ks| == |es| && forall i :: 0 <= i < |es| ==> ks[i] == Key(es[i].0)
  {
    seq(|es|, i requires 0 <= i < |es| => Key(es[i].0))
  }

  /** The keys of the parts for a run of entries appear in the order of the entries' keys. */
  lemma {:induction false} KeysOfEntries(es: seq<(Field, Value)>)
    ensures Seqs.IsSubsequence(PartKeys(SerialiseEntries(es)), EntryKeys(es))
  {
    if es != [] {
      var n := |es|;
      var init := es[..n - 1];
      var g := es[n - 1].0;
      var p := PartFor(g, es[n - 1].1);
      var tail := if p.Some? then [p.value] else [];
      var before := PartKeys(SerialiseEntries(init));
      var whole := EntryKeys(init);
      KeysOfEntries(init);
      assert PartKeys(SerialiseEntries(es)) == before + PartKeys(tail) by {
        PartKeysSnoc(SerialiseEntries(init), tail);
      }
      assert PartKeys(tail) == [] || PartKeys(tail) == [Key(g)] by {
        PartForKey(g, es[n - 1].1);
      }
      assert EntryKeys(es) == whole + [Key(g)];
      Seqs.SubsequenceSnoc(before, whole, Key(g));
      if PartKeys(tail) == [] {
        assert before + PartKeys(tail) == before;
      }
    }
  }

  /** The parts come in the record's field order, each key at most once. */
  lemma SerialisedInFieldOrder(d: FormRecord)
    ensures Seqs.IsSubsequence(PartKeys(Serialise(d)), AllKeys())
    ensures Seqs.NoDuplicates(PartKeys(Serialise(d)))
  {
    KeysOfEntries(Entries(d));
    assert EntryKeys(Entries(d)) == AllKeys();
    AllKeysDistinct();
    Seqs.SubsequenceOfDistinct(PartKeys(Serialise(d)), AllKeys());
  }

  function TextAt(ps: seq<Part>, f: Field): Option<string>
  {
    var p := Lookup(ps, f);
    if p.Some? && p.value.TextPart? then Some(p.value.text) else None
  }

  function FileAt(ps: seq<Part>, f: Field): Option<File>
  {
    var p := Lookup(ps, f);
    if p.Some? && p.value.FilePart? then Some(p.value.file) else None
  }

  /** How the receiving end reads the record back from the parts. */
  function Decode(ps: seq<Part>): FormRecord
  {
    FormRecord(
      OrEmpty(TextAt(ps, ItemName)), OrEmpty(TextAt(ps, Category)), OrEmpty(TextAt(ps, FoundBy)),
      OrEmpty(TextAt(ps, Email)), OrEmpty(TextAt(ps, Name)), TextAt(ps, Phone),
      OrEmpty(TextAt(ps, Place)), OrEmpty(TextAt(ps, Datetime)), OrEmpty(TextAt(ps, Description)),
      FileAt(ps, Photo), OrEmpty(TextAt(ps, HintQuestion)), TextAt(ps, HintAnswer), TextAt(ps, Notes))
  }

  /** No information is lost: reading the parts back gives the record that was serialised. */
  lemma SerialiseRoundTrip(d: FormRecord)
    ensures Decode(Serialise(d)) == d
  {
    forall f
      ensures Lookup(Serialise(d), f) == PartFor(f, Get(d, f))
    {
      SerialisedLookup(d, f);
    }
    DecodeFromLookups(Serialise(d), d);
  }

  /** A record is determined by the values of its fields. */
  lemma RecordFromFields(a: FormRecord, b: FormRecord)
    requires forall f :: Get(a, f) == Get(b, f)
    ensures a == b
  {
    assert a.itemName == b.itemName by { assert Get(a, ItemName) == Get(b, ItemName); }
    assert a.category == b.category by { assert Get(a, Category) == Get(b, Category); }
    assert a.foundBy == b.foundBy by { assert Get(a, FoundBy) == Get(b, FoundBy); }
    assert a.email == b.email by { assert Get(a, Email) == Get(b, Email); }
    assert a.name == b.name by { assert Get(a, Name) == Get(b, Name); }
    assert a.phone == b.phone by { assert Get(a, Phone) == Get(b, Phone); }
    assert a.place == b.place by { assert Get(a, Place) == Get(b, Place); }
    assert a.datetime == b.datetime by { assert Get(a, Datetime) == Get(b, Datetime); }
    assert a.description == b.description by { assert Get(a, Description) == Get(b, Description); }
    assert a.photo == b.photo by { assert Get(a, Photo) == Get(b, Photo); }
    assert a.hintQuestion == b.hintQuestion by { assert Get(a, HintQuestion) == Get(b, HintQuestion); }
    assert a.hintAnswer == b.hintAnswer by { assert Get(a, HintAnswer) == Get(b, HintAnswer); }
    assert a.notes == b.notes by { assert Get(a, Notes) == Get(b, Notes); }
  }

  /** Decoding reads each field back from the part under its key. */
  lemma DecodeField(ps: seq<Part>, d: FormRecord, f: Field)
    requires Lookup(ps, f) == PartFor(f, Get(d, f))
    ensures Get(Decode(ps), f) == Get(d, f)
  {
    match f {
      case Photo =>
        assert FileAt(ps, Photo) == d.photo;
      case Phone =>
        assert TextAt(ps, Phone) == d.phone;
      case HintAnswer =>
        assert TextAt(ps, HintAnswer) == d.hintAnswer;
      case Notes =>
        assert TextAt(ps, Notes) == d.notes;
      case _ =>
        assert Get(d, f).Text? && TextAt(ps, f) == Some(Get(d, f).text);
    }
  }

  /** Any part list whose lookups agree with a record decodes to that record. */
  lemma DecodeFromLookups(ps: seq<Part>, d: FormRecord)
    requires forall f :: Lookup(ps, f) == PartFor(f, Get(d, f))
    ensures Decode(ps) == d
  {
    forall f
      ensures Get(Decode(ps), f) == Get(d, f)
    {
      DecodeField(ps, d, f);
    }
    RecordFromFields(Decode(ps), d);
  }

  // ---------------------------------------------------------------- the component

  /** The outcome of the first, synchronous half of `handleSubmit`. */
  datatype SubmitStart = Rejected(message: string) | Sent(parts: seq<Part>)

  /** How the POST of the item settled. */
  datatype Response = Accepted | Failed(serverError: Option<string>)

  const SubmittedNotice: string := "Item submitted successfully"
  const DefaultFailure: string := "Submission failed \U{274C}"

  /** `err?.response?.data?.error || 'Submission failed ❌'`. */
  function FailureNotice(serverError: Option<string>): string
  {
    if serverError.Some? && serverError.value != "" then serverError.value else DefaultFailure
  }

  class FoundFormPage {
    var data: FormRecord
    var loading: bool

    constructor (now: string)
      ensures data == InitialRecord(now) && !loading
    {
      data := InitialRecord(now);
      loading := false;
    }

    /** The effect on `user`: with a signed-in user, fill in the identity fields. */
    method PrefillIdentity(user: Option<User>)
      modifies this`data
      ensures data == if user.Some? then WithIdentity(old(data), user.value) else old(data)
    {
      if user.Some? {
        data := WithIdentity(data, user.value);
      }
    }

    /** `handleChange` for the input named `f`. */
    method HandleChange(f: Field, value: string)
      requires f != Photo
      modifies this`data
      ensures data == SetText(old(data), f, value)
      ensures forall g :: g != f ==> Get(data, g) == Get(old(data), g)
    {
      data := SetText(data, f, value);
    }

    /** `handleFileChange`: the first selected file becomes the photo; no selection changes nothing. */
    method HandleFileChange(files: seq<File>)
      modifies this`data
      ensures |files| > 0 ==> data == old(data).(photo := Some(files[0]))
      ensures |files| == 0 ==> data == old(data)
    {
      if |files| > 0 {
        data := data.(photo := Some(files[0]));
      }
    }

    /** `handleSubmit` up to the request: validation, then `loading` and the field list sent. */
    method BeginSubmit() returns (start: SubmitStart)
      modifies this`loading
      ensures Validate(data) != Passed ==> start == Rejected(RejectionMessage(Validate(data))) && loading == old(loading)
      ensures Validate(data) == Passed ==> start == Sent(Serialise(data)) && loading
    {
      var check := Validate(data);
      if check != Passed {
        return Rejected(RejectionMessage(check));
      }
      loading := true;
      var parts := BuildFormData(data);
      start := Sent(parts);
    }

    /**
     * Pressing submit: nothing happens unless the browser lets the submit event
     * through; otherwise `handleSubmit` runs up to the request.
     */
    method Submit(fileChosen: bool) returns (start: Option<SubmitStart>)
      modifies this`loading
      ensures !SubmitAllowed(data, fileChosen, old(loading)) ==> start.None? && loading == old(loading)
      ensures SubmitAllowed(data, fileChosen, old(loading)) && Validate(data) != Passed ==>
        start == Some(Rejected(RejectionMessage(Validate(data)))) && loading == old(loading)
      ensures SubmitAllowed(data, fileChosen, old(loading)) && Validate(data) == Passed ==>
        start == Some(Sent(Serialise(data))) && loading
    {
      if !SubmitAllowed(data, fileChosen, loading) {
        return None;
      }
      var s := BeginSubmit();
      start := Some(s);
    }

    /** `handleSubmit` after the request: on success the reset, on failure the record is kept; `loading` ends either way. */
    method FinishSubmit(response: Response, now: string) returns (notice: string)
      modifies this`data, this`loading
      ensures !loading
      ensures response.Accepted? ==> data == ClearedAfterSubmit(old(data), now) && notice == SubmittedNotice
      ensures response.Failed? ==> data == old(data) && notice == FailureNotice(response.serverError)
    {
      if response.Accepted? {
        data := ClearedAfterSubmit(data, now);
        notice := SubmittedNotice;
      } else {
        notice := FailureNotice(response.serverError);
      }
      loading := false;
    }
  }
}
