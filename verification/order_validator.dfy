/**
 * The order validator (`OrderValidator.validate`): four independent
 * presence checks on an order record, whose failures are collected in a
 * fixed order; the order is valid exactly when none failed.
 */
module OrderValidator {
  import opened JsValues

  /** The fields the validator reads; each may be missing (`undefined` or `null`). */
  datatype Order = Order(
    id: Option<string>,
    cliente: Option<string>,
    telefono: Option<string>,
    direccion: Option<string>)

  /** The four reasons an order is rejected, one per checked field. */
  datatype FieldError = MissingId | MissingCliente | MissingTelefono | MissingDireccion

  /** `{ isValid, errores }`, with each message kept as the reason it stands for. */
  datatype Validation = Validation(isValid: bool, errores: seq<FieldError>)

  /** The message text pushed for each reason. */
  function Message(e: FieldError): string {
    match e
    case MissingId => "Falta Número de Pedido"
    case MissingCliente => "Falta Nombre Cliente"
    case MissingTelefono => "Falta Teléfono"
    case MissingDireccion => "Falta Dirección"
  }

  /** The four messages are distinct, so reporting reasons instead of texts loses nothing. */
  lemma MessageInjective(e1: FieldError, e2: FieldError)
    requires Message(e1) == Message(e2)
    ensures e1 == e2
  {
    assert |Message(MissingId)| == 22;
    assert |Message(MissingCliente)| == 20;
    assert |Message(MissingTelefono)| == 14;
    assert |Message(MissingDireccion)| == 15;
  }

  /** Every reason, in the order the fields are checked. */
  const AllErrors: seq<FieldError> := [MissingId, MissingCliente, MissingTelefono, MissingDireccion]

  /** The position of a reason in the checking order. */
  function Rank(e: FieldError): nat {
    match e
    case MissingId => 0
    case MissingCliente => 1
    case MissingTelefono => 2
    case MissingDireccion => 3
  }

  /** `!v || v.trim() === ""`: the test applied to the name and the address. */
  predicate IsBlankField(v: Option<string>) {
    !Truthy(v) || Trim(v.value) == ""
  }

  /**
   * The messages collected by the four checks, given which of them failed:
   * each failed check adds its own message, in checking order.
   */
  function Collect(noId: bool, noCliente: bool, noTelefono: bool, noDireccion: bool): (es: seq<FieldError>)
    ensures es == [] <==> !noId && !noCliente && !noTelefono && !noDireccion
    ensures MissingId in es <==> noId
    ensures MissingCliente in es <==> noCliente
    ensures MissingTelefono in es <==> noTelefono
    ensures MissingDireccion in es <==> noDireccion
  {
    (if noId then [MissingId] else [])
    + (if noCliente then [MissingCliente] else [])
    + (if noTelefono then [MissingTelefono] else [])
    + (if noDireccion then [MissingDireccion] else [])
  }

  /** `validate(pedido)`. */
  function Validate(p: Order): (v: Validation)
    ensures v.isValid <==> v.errores == []
    ensures MissingId in v.errores <==> !Truthy(p.id)
    ensures MissingCliente in v.errores <==> IsBlankField(p.cliente)
    ensures MissingTelefono in v.errores <==> !Truthy(p.telefono)
    ensures MissingDireccion in v.errores <==> IsBlankField(p.direccion)
  {
    var errores := Collect(!Truthy(p.id), IsBlankField(p.cliente), !Truthy(p.telefono), IsBlankField(p.direccion));
    Validation(|errores| == 0, errores)
  }

  /** The messages follow the checking order id, name, phone, address; so none appears twice and there are at most four. */
  lemma ErrorOrder(p: Order)
    ensures forall i, j :: 0 <= i < j < |Validate(p).errores| ==>
      Rank(Validate(p).errores[i]) < Rank(Validate(p).errores[j])
    ensures forall i, j :: 0 <= i < j < |Validate(p).errores| ==> Validate(p).errores[i] != Validate(p).errores[j]
    ensures |Validate(p).errores| <= 4
  {
    CollectOrder(!Truthy(p.id), IsBlankField(p.cliente), !Truthy(p.telefono), IsBlankField(p.direccion));
  }

  lemma CollectOrder(noId: bool, noCliente: bool, noTelefono: bool, noDireccion: bool)
    ensures var es := Collect(noId, noCliente, noTelefono, noDireccion);
      && (forall i, j :: 0 <= i < j < |es| ==> Rank(es[i]) < Rank(es[j]))
      && |es| <= 4
  {
  }

  /** The checks are not short-circuited: a record with every field missing collects all four messages, in order. */
  lemma AllMissing()
    ensures Validate(Order(None, None, None, None)) == Validation(false, AllErrors)
    ensures Validate(Order(Some(""), Some(""), Some(""), Some(""))) == Validation(false, AllErrors)
  {
  }

  /** Only the name and the address are trimmed: a whitespace-only name or address is reported missing. */
  lemma WhitespaceNameAndAddressRejected(blank: string, other: string)
    requires blank != "" && IsBlank(blank)
    requires other != "" && !IsBlank(other)
    ensures Validate(Order(Some(other), Some(blank), Some(other), Some(blank))).errores
      == [MissingCliente, MissingDireccion]
  {
    TrimEmptyIffBlank(blank);
    TrimEmptyIffBlank(other);
  }

  /** The id and the phone are only checked for falsiness: whitespace-only values pass. */
  lemma WhitespaceIdAndPhoneAccepted(blank: string, other: string)
    requires blank != "" && IsBlank(blank)
    requires !IsBlank(other)
    ensures Validate(Order(Some(blank), Some(other), Some(blank), Some(other))) == Validation(true, [])
  {
    TrimEmptyIffBlank(other);
  }

  /** A record with a truthy id and phone and a non-blank name and address is valid with no errors. */
  lemma CompleteOrderIsValid(p: Order)
    requires Truthy(p.id) && Truthy(p.telefono)
    requires !IsBlankField(p.cliente) && !IsBlankField(p.direccion)
    ensures Validate(p) == Validation(true, [])
  {
  }
}
