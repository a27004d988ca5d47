/** The bindings of an uploaded Worker: their fields, what each type permits, and the form in
    which a revision stores them.

    Strings are byte strings. A JSON value is opaque but for whether it is well formed, and None
    when it is empty. */
module UploadBindings {
  import opened Outcomes

  datatype Kind =
    | PlainText | Json | SecretText | KvNamespace | D1 | R2Bucket | Service | Assets
    | DispatchNamespace | SecretKey | Inherit | OtherKind(tag: string)

  datatype JsonText = JsonText(raw: string, wellFormed: bool)

  datatype Binding = Binding(
    name: string, kind: Kind, text: Option<string>, json: Option<JsonText>,
    namespaceID: string, namespace: string, id: string, databaseID: string, bucketName: string,
    service: string, environment: string, oldName: string, versionID: string)

  datatype Field =
    | TextField | JsonField | NamespaceIDField | NamespaceField | IDField | DatabaseIDField | BucketNameField
    | ServiceField | EnvironmentField | OldNameField | VersionIDField

  predicate Fills(b: Binding, field: Field) {
    match field
    case TextField => b.text.Some?
    case JsonField => b.json.Some?
    case NamespaceIDField => b.namespaceID != ""
    case NamespaceField => b.namespace != ""
    case IDField => b.id != ""
    case DatabaseIDField => b.databaseID != ""
    case BucketNameField => b.bucketName != ""
    case ServiceField => b.service != ""
    case EnvironmentField => b.environment != ""
    case OldNameField => b.oldName != ""
    case VersionIDField => b.versionID != ""
  }

  /** The fields besides name and type that the binding fills in. */
  function Filled(b: Binding): set<Field> {
    set field: Field | Fills(b, field)
  }

  /** A binding with malformed JSON has no encoding, hence no encoded fields. */
  predicate Encodable(b: Binding) {
    b.json.Some? ==> b.json.value.wellFormed
  }

  function EncodedFields(b: Binding): set<Field> {
    if Encodable(b) then Filled(b) else {}
  }

  function Permitted(kind: Kind): set<Field> {
    match kind
    case PlainText => {TextField}
    case Json => {JsonField}
    case SecretText => {TextField}
    case KvNamespace => {NamespaceIDField}
    case D1 => {IDField, DatabaseIDField}
    case R2Bucket => {BucketNameField}
    case Service => {ServiceField, EnvironmentField}
    case DispatchNamespace => {NamespaceField}
    case _ => {}
  }

  /** The current identifier, or the deprecated one. */
  function DatabaseIDOf(b: Binding): string {
    if b.databaseID != "" then b.databaseID else b.id
  }

  /** What the binding must fill in, by its type. */
  predicate Sufficient(b: Binding) {
    match b.kind
    case PlainText => b.text.Some?
    case Json => b.json.Some? && b.json.value.wellFormed
    case SecretText => true
    case KvNamespace => b.namespaceID != ""
    case D1 => DatabaseIDOf(b) != "" && (b.id == "" || b.databaseID == "" || b.id == b.databaseID)
    case R2Bucket => b.bucketName != ""
    case Service => b.service != "" && (b.environment == "" || b.environment == "production")
    case DispatchNamespace => b.namespace != ""
    case Assets => true
    case _ => false
  }

  predicate ValidBinding(b: Binding) {
    Sufficient(b) && EncodedFields(b) <= Permitted(b.kind)
  }

  predicate Supported(kind: Kind, allowDispatch: bool) {
    match kind
    case SecretKey => false
    case Inherit => false
    case OtherKind(_) => false
    case DispatchNamespace => allowDispatch
    case _ => true
  }

  method Validate(b: Binding) returns (ok: bool)
    ensures ok <==> ValidBinding(b)
  {
    hide EncodedFields, Permitted;
    var required := "-";
    match b.kind {
      case PlainText => if b.text.None? { return false; }
      case Json => if b.json.None? || !b.json.value.wellFormed { return false; }
      case SecretText =>
      case KvNamespace => required := b.namespaceID;
      case D1 =>
        if b.id != "" && b.databaseID != "" && b.id != b.databaseID { return false; }
        required := DatabaseIDOf(b);
      case R2Bucket => required := b.bucketName;
      case Service =>
        required := b.service;
        if b.environment != "" && b.environment != "production" { return false; }
      case DispatchNamespace => required := b.namespace;
      case Assets =>
      case _ => return false;
    }
    if required == "" { return false; }
    ok := FieldsAllowed(EncodedFields(b), Permitted(b.kind));
  }

  method FieldsAllowed(fields: set<Field>, allowed: set<Field>) returns (ok: bool)
    ensures ok <==> fields <= allowed
  {
    var left := fields;
    while left != {}
      invariant left <= fields && fields - left <= allowed
      decreases |left|
    {
      var field :| field in left;
      if field !in allowed { return false; }
      left := left - {field};
    }
    ok := true;
  }

  /** An inherit entry fills in nothing but its name, its source and its version. */
  predicate Bare(b: Binding) {
    Filled(b) <= {OldNameField, VersionIDField}
  }

  // ----- the stored form

  /** A revision stores no secret values and only the current D1 identifier. */
  function Stored(b: Binding): Binding {
    match b.kind
    case SecretText => b.(text := None)
    case D1 => b.(databaseID := DatabaseIDOf(b), id := "")
    case _ => b
  }

  lemma StoredIsStable(b: Binding)
    ensures Stored(Stored(b)) == Stored(b)
    ensures ValidBinding(b) ==> ValidBinding(Stored(b))
    ensures Stored(b).name == b.name && Stored(b).kind == b.kind
  {
  }

  /** The binding without the fields that its type does not permit. */
  function OwnFields(b: Binding): Binding {
    var own := Permitted(b.kind);
    Binding(b.name, b.kind,
      if TextField in own then b.text else None, if JsonField in own then b.json else None,
      if NamespaceIDField in own then b.namespaceID else "", if NamespaceField in own then b.namespace else "",
      if IDField in own then b.id else "", if DatabaseIDField in own then b.databaseID else "",
      if BucketNameField in own then b.bucketName else "", if ServiceField in own then b.service else "",
      if EnvironmentField in own then b.environment else "", if OldNameField in own then b.oldName else "",
      if VersionIDField in own then b.versionID else "")
  }

  /** The two bindings agree on the field. */
  predicate Same(b: Binding, own: Binding, field: Field) {
    match field
    case TextField => b.text == own.text
    case JsonField => b.json == own.json
    case NamespaceIDField => b.namespaceID == own.namespaceID
    case NamespaceField => b.namespace == own.namespace
    case IDField => b.id == own.id
    case DatabaseIDField => b.databaseID == own.databaseID
    case BucketNameField => b.bucketName == own.bucketName
    case ServiceField => b.service == own.service
    case EnvironmentField => b.environment == own.environment
    case OldNameField => b.oldName == own.oldName
    case VersionIDField => b.versionID == own.versionID
  }

  lemma OwnField(b: Binding, field: Field)
    ensures Same(b, OwnFields(b), field) <==> !Fills(b, field) || field in Permitted(b.kind)
  {
    hide Permitted;
    match field
    case TextField =>
    case JsonField =>
    case NamespaceIDField =>
    case NamespaceField =>
    case IDField =>
    case DatabaseIDField =>
    case BucketNameField =>
    case ServiceField =>
    case EnvironmentField =>
    case OldNameField =>
    case VersionIDField =>
  }

  lemma NothingElse(b: Binding)
    ensures Filled(b) <= Permitted(b.kind) <==> b == OwnFields(b)
  {
    hide Permitted, Fills;
    var own := OwnFields(b);
    forall field ensures Same(b, own, field) <==> !Fills(b, field) || field in Permitted(b.kind) {
      OwnField(b, field);
    }
    assert own.name == b.name && own.kind == b.kind;
    hide OwnFields;
    if Filled(b) <= Permitted(b.kind) {
      assert forall field :: Fills(b, field) ==> field in Filled(b);
      AllSame(b, own);
    }
  }

  lemma AllSame(b: Binding, own: Binding)
    requires b.name == own.name && b.kind == own.kind && forall field :: Same(b, own, field)
    ensures b == own
  {
    assert Same(b, own, TextField);
    assert Same(b, own, JsonField);
    assert Same(b, own, NamespaceIDField);
    assert Same(b, own, NamespaceField);
    assert Same(b, own, IDField);
    assert Same(b, own, DatabaseIDField);
    assert Same(b, own, BucketNameField);
    assert Same(b, own, ServiceField);
    assert Same(b, own, EnvironmentField);
    assert Same(b, own, OldNameField);
    assert Same(b, own, VersionIDField);
  }

  /** A binding is valid exactly when it fills in what its type must and nothing else; but one
      whose JSON is malformed has no fields to check, whatever else it fills in. */
  lemma ValidExactlyWhen(b: Binding)
    ensures ValidBinding(b) <==> Sufficient(b) && (Encodable(b) ==> b == OwnFields(b))
  {
    hide Sufficient, Permitted, Filled, OwnFields;
    NothingElse(b);
  }

  /** A valid binding with an encoding holds its type's fields and no others. */
  lemma ValidShape(b: Binding)
    requires ValidBinding(b) && Encodable(b)
    ensures b.oldName == b.versionID == ""
    ensures b.text.Some? ==> b.kind in {PlainText, SecretText}
    ensures b.json.Some? <==> b.kind == Json
    ensures b.namespaceID != "" <==> b.kind == KvNamespace
    ensures b.namespace != "" <==> b.kind == DispatchNamespace
    ensures DatabaseIDOf(b) != "" <==> b.kind == D1
    ensures b.bucketName != "" <==> b.kind == R2Bucket
    ensures b.service != "" <==> b.kind == Service
    ensures b.environment != "" ==> b.kind == Service
  {
    hide ValidBinding, Encodable;
    ValidExactlyWhen(b);
    var own := OwnFields(b);
    assert b.oldName == own.oldName && b.versionID == own.versionID && b.text == own.text && b.json == own.json;
    assert b.namespaceID == own.namespaceID && b.namespace == own.namespace && b.bucketName == own.bucketName;
    assert b.id == own.id && b.databaseID == own.databaseID;
    assert b.service == own.service && b.environment == own.environment;
  }

  function Blank(name: string, kind: Kind): Binding {
    Binding(name, kind, None, None, "", "", "", "", "", "", "", "", "")
  }

  /** The shape of a valid binding that has an encoding, type by type: what it must hold, and that it
      holds nothing else. */
  predicate Shaped(b: Binding) {
    var blank := Blank(b.name, b.kind);
    match b.kind
    case PlainText => b.text.Some? && b == blank.(text := b.text)
    case Json => b.json.Some? && b == blank.(json := b.json)
    case SecretText => b == blank.(text := b.text)
    case KvNamespace => b.namespaceID != "" && b == blank.(namespaceID := b.namespaceID)
    case D1 =>
      && (b.id != "" || b.databaseID != "") && (b.id == b.databaseID || b.id == "" || b.databaseID == "")
      && b == blank.(id := b.id, databaseID := b.databaseID)
    case R2Bucket => b.bucketName != "" && b == blank.(bucketName := b.bucketName)
    case Service =>
      && b.service != "" && (b.environment == "" || b.environment == "production")
      && b == blank.(service := b.service, environment := b.environment)
    case DispatchNamespace => b.namespace != "" && b == blank.(namespace := b.namespace)
    case Assets => b == blank
    case _ => false
  }

  lemma ValidExactlyByShape(b: Binding)
    requires Encodable(b)
    ensures ValidBinding(b) <==> Shaped(b)
  {
    hide ValidBinding, Shaped, Sufficient, OwnFields;
    ValidExactlyWhen(b);
    if b.kind in {PlainText, Json, SecretText, Assets} { ValueShaped(b); } else { ResourceShaped(b); }
  }

  lemma ValueShaped(b: Binding)
    requires b.kind in {PlainText, Json, SecretText, Assets} && Encodable(b)
    ensures Shaped(b) <==> Sufficient(b) && b == OwnFields(b)
  {
  }

  lemma ResourceShaped(b: Binding)
    requires b.kind !in {PlainText, Json, SecretText, Assets}
    ensures Shaped(b) <==> Sufficient(b) && b == OwnFields(b)
  {
  }
}
