/**
 * The mock order fixtures shipped with the front end, and what the
 * validator says about each of them.
 */
module MockOrders {
  import opened JsValues
  import opened OrderValidator

  function Fixture(id: string, cliente: string, telefono: string, direccion: string): Order {
    Order(Some(id), Some(cliente), Some(telefono), Some(direccion))
  }

  const Ped1001: Order := Fixture("PED-1001", "Ana Pérez", "+56912345678", "Av. Providencia 1234, Providencia")
  const Ped1002: Order := Fixture("PED-1002", "Carlos Díaz", "987654321", "Moneda 1137, Santiago")
  const Ped1003: Order := Fixture("PED-1003", "Luisa Tapia", "+56955555555", "Av. Apoquindo 4500, Las Condes")
  const Ped1004: Order := Fixture("PED-1004", "Pedro Pascal", "+56944444444", "Av. Irarrázaval 2401, Ñuñoa")
  const Ped1005: Order := Fixture("PED-1005", "Gabriela Mistral", "+56933333333", "Av. Vitacura 2900, Las Condes")
  const PedErr1: Order := Fixture("PED-ERR-1", "Cliente Sin Dirección", "+56911111111", "")
  const PedErr2: Order := Fixture("PED-ERR-2", "Cliente Fantasma", "", "Calle Conocida 123")

  /** The fixture list, in file order. */
  const MockOrderList: seq<Order> := [Ped1001, Ped1002, Ped1003, Ped1004, Ped1005, PedErr1, PedErr2]

  /** A fixture whose four fields are filled with text starting with a non-space passes validation. */
  lemma FilledFixtureIsValid(id: string, cliente: string, telefono: string, direccion: string)
    requires id != "" && telefono != ""
    requires cliente != "" && !IsJsWhitespace(cliente[0])
    requires direccion != "" && !IsJsWhitespace(direccion[0])
    ensures Validate(Fixture(id, cliente, telefono, direccion)) == Validation(true, [])
  {
    NonBlankSurvivesTrim(cliente, 0);
    NonBlankSurvivesTrim(direccion, 0);
  }

  /** PED-1001 to PED-1005, the first five fixtures, are valid. */
  lemma GoodFixturesAreValid()
    ensures Validate(Ped1001).isValid && Validate(Ped1002).isValid && Validate(Ped1003).isValid
    ensures Validate(Ped1004).isValid && Validate(Ped1005).isValid
  {
    Ped1001IsValid();
    Ped1002IsValid();
    Ped1003IsValid();
    Ped1004IsValid();
    Ped1005IsValid();
  }

  lemma Ped1001IsValid()
    ensures Validate(Ped1001) == Validation(true, [])
  {
    FilledFixtureIsValid("PED-1001", "Ana Pérez", "+56912345678", "Av. Providencia 1234, Providencia");
  }

  lemma Ped1002IsValid()
    ensures Validate(Ped1002) == Validation(true, [])
  {
    FilledFixtureIsValid("PED-1002", "Carlos Díaz", "987654321", "Moneda 1137, Santiago");
  }

  lemma Ped1003IsValid()
    ensures Validate(Ped1003) == Validation(true, [])
  {
    FilledFixtureIsValid("PED-1003", "Luisa Tapia", "+56955555555", "Av. Apoquindo 4500, Las Condes");
  }

  lemma Ped1004IsValid()
    ensures Validate(Ped1004) == Validation(true, [])
  {
    FilledFixtureIsValid("PED-1004", "Pedro Pascal", "+56944444444", "Av. Irarrázaval 2401, Ñuñoa");
  }

  lemma Ped1005IsValid()
    ensures Validate(Ped1005) == Validation(true, [])
  {
    FilledFixtureIsValid("PED-1005", "Gabriela Mistral", "+56933333333", "Av. Vitacura 2900, Las Condes");
  }

  /** PED-ERR-1 (empty address) is rejected with exactly "Falta Dirección". */
  lemma MissingAddressFixture()
    ensures Validate(PedErr1) == Validation(false, [MissingDireccion])
  {
    NonBlankSurvivesTrim("Cliente Sin Dirección", 0);
  }

  /** PED-ERR-2 (empty phone) is rejected with exactly "Falta Teléfono". */
  lemma MissingPhoneFixture()
    ensures Validate(PedErr2) == Validation(false, [MissingTelefono])
  {
    NonBlankSurvivesTrim("Cliente Fantasma", 0);
    NonBlankSurvivesTrim("Calle Conocida 123", 0);
  }
}
