/** The request validators of the dto package: login, refresh, client registration and customer creation. */
module Dto {
  import opened Wrappers
  import opened Text
  import opened Validation

  // ---------------------------------------------------------------- login

  datatype LoginReq = LoginReq(clientId: string, secret: string)

  /** The login field check: empty, or outside 1..100 characters after trimming. */
  predicate LoginFieldInvalid(x: string) {
    x == "" || !StringFiledValidation(x, 1, 100)
  }

  /**
   * LoginReq.Validate: each field is checked on its own; a failing field gets its required
   * message under its own key and sets Status. Status code and message are always 422 and
   * "Validation failed!".
   */
  function LoginValidate(r: LoginReq): (v: Validation)
    ensures v.statusCode == 422 && v.message == "Validation failed!" && !v.customValidationError
    ensures v.status <==> |TrimSpace(r.clientId)| == 0 || |TrimSpace(r.clientId)| > 100 ||
                          |TrimSpace(r.secret)| == 0 || |TrimSpace(r.secret)| > 100
    ensures ("client_id" in v.response <==> |TrimSpace(r.clientId)| == 0 || |TrimSpace(r.clientId)| > 100) &&
            ("client_id" in v.response ==> v.response["client_id"] == Text(ErrorMessage("client_id")))
    ensures ("secret" in v.response <==> |TrimSpace(r.secret)| == 0 || |TrimSpace(r.secret)| > 100) &&
            ("secret" in v.response ==> v.response["secret"] == Text(ErrorMessage("secret")))
    ensures v.response.Keys <= {"client_id", "secret"}
    ensures !v.status <==> v.response == map[]
  {
    var v := NewValidationError();
    var errs: map<string, ErrValue> := map[];
    var (errs, status) :=
      if LoginFieldInvalid(r.clientId) then (errs["client_id" := Text(ErrorMessage("client_id"))], true) else (errs, v.status);
    var (errs, status) :=
      if LoginFieldInvalid(r.secret) then (errs["secret" := Text(ErrorMessage("secret"))], true) else (errs, status);
    v.(status := status, response := errs)
  }

  // ---------------------------------------------------------------- refresh

  datatype RefreshTokenReq = RefreshTokenReq(refreshToken: string)

  /**
   * RefreshTokenReq.Validate: the refresh token is invalid when empty after trimming or longer
   * than 100 characters; the only key that can appear is "refresh_token".
   */
  function RefreshValidate(r: RefreshTokenReq): (v: Validation)
    ensures v.statusCode == 422 && v.message == "Validation failed!" && !v.customValidationError
    ensures v.status <==> |TrimSpace(r.refreshToken)| == 0 || |TrimSpace(r.refreshToken)| > 100
    ensures v.status ==> v.response == map["refresh_token" := Text(ErrorMessage("refresh_token"))]
    ensures !v.status ==> v.response == map[]
  {
    var v := NewValidationError();
    var errs: map<string, ErrValue> := map[];
    if r.refreshToken == "" || !StringFiledValidation(r.refreshToken, 1, 100) then
      v.(status := true, response := errs["refresh_token" := Text(ErrorMessage("refresh_token"))])
    else
      v.(response := errs)
  }

  // ---------------------------------------------------------------- client registration

  /** The registration request; IsActive and Description are carried but never checked. */
  datatype RegisterClientReq = RegisterClientReq(name: string, email: string, isActive: bool, description: string)

  /**
   * RegisterClientReq.Validate: the name is invalid when empty after trimming or longer than
   * 50 characters, the email when it does not match the address pattern; both are reported.
   */
  function RegisterClientValidate(r: RegisterClientReq): (v: Validation)
    ensures v.statusCode == 422 && v.message == "Validation failed!" && !v.customValidationError
    ensures ("name" in v.response <==> |TrimSpace(r.name)| == 0 || |TrimSpace(r.name)| > 50) &&
            ("name" in v.response ==> v.response["name"] == Text(ErrorMessage("name")))
    ensures ("email" in v.response <==> !IsEmailValid(r.email)) &&
            ("email" in v.response ==> v.response["email"] == Text(ErrorMessage("email")))
    ensures v.response.Keys <= {"name", "email"}
    ensures v.status <==> v.response != map[]
  {
    var nameBad := r.name == "" || !StringFiledValidation(r.name, 1, 50);
    var emailBad := r.email == "" || !IsEmailValid(r.email);
    assert emailBad == !IsEmailValid(r.email) by {
      EmptyEmailInvalid();
    }
    Registered(nameBad, emailBad)
  }

  /** The outcome for the two field verdicts, each reported under its own key. */
  function Registered(nameBad: bool, emailBad: bool): (v: Validation)
    ensures v.statusCode == 422 && v.message == "Validation failed!" && !v.customValidationError
    ensures ("name" in v.response <==> nameBad) && ("name" in v.response ==> v.response["name"] == Text(ErrorMessage("name")))
    ensures ("email" in v.response <==> emailBad) && ("email" in v.response ==> v.response["email"] == Text(ErrorMessage("email")))
    ensures v.response.Keys <= {"name", "email"}
    ensures v.status <==> v.response != map[]
  {
    var v := NewValidationError();
    var errs: map<string, ErrValue> := map[];
    var (errs, status) := if nameBad then (errs["name" := Text(ErrorMessage("name"))], true) else (errs, v.status);
    var (errs, status) := if emailBad then (errs["email" := Text(ErrorMessage("email"))], true) else (errs, status);
    v.(status := status, response := errs)
  }

  lemma EmptyEmailInvalid()
    ensures !IsEmailValid("")
  {
  }

  /** Registration refuses any address with a capital letter, and the flags and description never matter. */
  lemma RegisterRejectsCapitals(r: RegisterClientReq, i: int)
    requires 0 <= i < |r.email| && IsUpper(r.email[i])
    ensures "email" in RegisterClientValidate(r).response && RegisterClientValidate(r).status
  {
    if IsEmailValid(r.email) {
      EmailValidIsLowerCaseWithoutPlus(r.email);
    }
  }

  /** IsActive and Description never change the outcome. */
  lemma RegisterIgnoresFlags(r: RegisterClientReq, isActive: bool, description: string)
    ensures RegisterClientValidate(r.(isActive := isActive, description := description)) == RegisterClientValidate(r)
  {
  }

  // ---------------------------------------------------------------- customer creation

  datatype CreateCustomerRequest = CreateCustomerRequest(
    verificationType: Option<string>,
    firstName: string, lastName: string, dob: string, email: string, phone: string,
    countryOfResidence: string, nationality: string, tin: string,
    street: string, city: string, state: string, postalCode: string, country: string,
    occupationId: Option<int>, sourceOfFundId: Option<int>, purposeId: Option<int>,
    monthlyVolumeUSD: real, sofDescription: string,
    reference: string)

  /**
   * What the customer checks depend on but this model does not define: the two accepted
   * verification types, the date-of-birth check, the phone normaliser's verdict and the
   * positive-volume test on the floating-point amount.
   */
  datatype Externals = Externals(
    reliance: string, standard: string,
    dateOk: string -> bool, phoneOk: string -> bool, volumeOk: real -> bool)

  /** The blank test as written: the trimmed text equals a single space. */
  predicate SingleSpace(s: string) {
    TrimSpace(s) == " "
  }

  /** The blank test evidently intended: the trimmed text is empty. */
  predicate EmptyAfterTrim(s: string) {
    TrimSpace(s) == ""
  }

  /** Which blank test the text-field checks use. */
  datatype BlankTest = AsWritten | Intended

  predicate Blank(test: BlankTest, s: string) {
    match test
    case AsWritten => SingleSpace(s)
    case Intended => EmptyAfterTrim(s)
  }

  /** An identifier check: missing or not positive. */
  predicate BadId(id: Option<int>) {
    id == None || id.value <= 0
  }

  /** The identity checks that precede the text fields: type, names, birth date, email and phone. */
  predicate IdentityPasses(req: CreateCustomerRequest, ext: Externals)
    requires req.verificationType.Some?
  {
    (req.verificationType.value == ext.reliance || req.verificationType.value == ext.standard) &&
    IsValidName(req.firstName) && IsValidName(req.lastName) && ext.dateOk(req.dob) &&
    IsEmailValid(req.email) && ext.phoneOk(req.phone)
  }

  /** The basic-information text fields tested for blankness. */
  predicate BasicInfoPasses(req: CreateCustomerRequest, test: BlankTest) {
    !Blank(test, req.countryOfResidence) && !Blank(test, req.nationality) && !Blank(test, req.tin)
  }

  /** The address fields, all tested for blankness. */
  predicate AddressPasses(req: CreateCustomerRequest, test: BlankTest) {
    !Blank(test, req.street) && !Blank(test, req.city) && !Blank(test, req.state) &&
    !Blank(test, req.postalCode) && !Blank(test, req.country)
  }

  /** The text fields of the basic information and the address that are tested for blankness. */
  predicate TextFieldsPass(req: CreateCustomerRequest, test: BlankTest) {
    BasicInfoPasses(req, test) && AddressPasses(req, test)
  }

  /** The financial profile and metadata checks. */
  predicate ProfilePasses(req: CreateCustomerRequest, ext: Externals, test: BlankTest) {
    !BadId(req.occupationId) && !BadId(req.sourceOfFundId) && !BadId(req.purposeId) &&
    ext.volumeOk(req.monthlyVolumeUSD) && !Blank(test, req.sofDescription) && !Blank(test, req.reference)
  }

  /** The checks of CreateCustomerRequest.ValidateRequest, in the order they run. */
  datatype Failure =
    | BadVerificationType | BadFirstName | BadLastName | BadDob | BadEmail | BadPhone
    | BadCountryOfResidence | BadNationality | BadTin | BadStreet | BadCity | BadState
    | BadPostalCode | BadCountry | BadOccupationId | BadSourceOfFundId | BadPurposeId
    | BadMonthlyVolume | BadSofDescription | BadReference

  /** The message each failing check returns. */
  function Message(f: Failure): string {
    match f
    case BadVerificationType => "Invalid verification type"
    case BadFirstName => "Invalid first name"
    case BadLastName => "Invalid last name"
    case BadDob => "Invalid date of birth"
    case BadEmail => "Invalid email address"
    case BadPhone => "Invalid phone number"
    case BadCountryOfResidence => "Invalid country of residence"
    case BadNationality => "Invalid nationality"
    case BadTin => "Invalid TIN"
    case BadStreet => "Invalid street"
    case BadCity => "Invalid city"
    case BadState => "Invalid state"
    case BadPostalCode => "Invalid postal code"
    case BadCountry => "Invalid country"
    case BadOccupationId => "Invalid occupation ID"
    case BadSourceOfFundId => "Invalid source of fund ID"
    case BadPurposeId => "Invalid purpose ID"
    case BadMonthlyVolume => "Invalid monthly volume in USD"
    case BadSofDescription => "Invalid source of fund description"
    case BadReference => "Invalid reference in meta data"
  }

  /** The stage a check belongs to: 0 identity, 1 text fields, 2 financial profile and metadata. */
  function Stage(f: Failure): nat {
    match f
    case BadVerificationType | BadFirstName | BadLastName | BadDob | BadEmail | BadPhone => 0
    case BadCountryOfResidence | BadNationality | BadTin | BadStreet | BadCity | BadState
       | BadPostalCode | BadCountry => 1
    case _ => 2
  }

  /** The identity checks, in order: verification type, first and last name, birth date, email, phone. */
  function IdentityFailure(req: CreateCustomerRequest, ext: Externals): (r: Option<Failure>)
    requires req.verificationType.Some?
    ensures r == None <==> IdentityPasses(req, ext)
    ensures r.Some? ==> Stage(r.value) == 0
    ensures var typeOk := req.verificationType.value == ext.reliance || req.verificationType.value == ext.standard;
      (r == Some(BadVerificationType) <==> !typeOk) &&
      (r == Some(BadFirstName) ==> typeOk && !IsValidName(req.firstName)) &&
      (r == Some(BadLastName) ==> typeOk && IsValidName(req.firstName) && !IsValidName(req.lastName)) &&
      (r == Some(BadDob) ==> typeOk && IsValidName(req.firstName) && IsValidName(req.lastName) && !ext.dateOk(req.dob)) &&
      (r == Some(BadEmail) ==> typeOk && IsValidName(req.firstName) && IsValidName(req.lastName) && ext.dateOk(req.dob) &&
                               !IsEmailValid(req.email)) &&
      (r == Some(BadPhone) ==> typeOk && IsValidName(req.firstName) && IsValidName(req.lastName) && ext.dateOk(req.dob) &&
                               IsEmailValid(req.email) && !ext.phoneOk(req.phone))
  {
    if req.verificationType.value != ext.reliance && req.verificationType.value != ext.standard then Some(BadVerificationType)
    else if !IsValidName(req.firstName) then Some(BadFirstName)
    else if !IsValidName(req.lastName) then Some(BadLastName)
    else if !ext.dateOk(req.dob) then Some(BadDob)
    else if !IsEmailValid(req.email) then Some(BadEmail)
    else if !ext.phoneOk(req.phone) then Some(BadPhone)
    else None
  }

  /** The blank checks on the basic information, in order. */
  function BasicInfoFailure(req: CreateCustomerRequest, test: BlankTest): (r: Option<Failure>)
    ensures r == None <==> BasicInfoPasses(req, test)
    ensures r.Some? ==> Stage(r.value) == 1
    ensures r == Some(BadCountryOfResidence) <==> Blank(test, req.countryOfResidence)
    ensures r == Some(BadNationality) ==> !Blank(test, req.countryOfResidence) && Blank(test, req.nationality)
    ensures r == Some(BadTin) ==> !Blank(test, req.countryOfResidence) && !Blank(test, req.nationality) && Blank(test, req.tin)
  {
    if Blank(test, req.countryOfResidence) then Some(BadCountryOfResidence)
    else if Blank(test, req.nationality) then Some(BadNationality)
    else if Blank(test, req.tin) then Some(BadTin)
    else None
  }

  /** The blank checks on the address, in order. */
  function AddressFailure(req: CreateCustomerRequest, test: BlankTest): (r: Option<Failure>)
    ensures r == None <==> AddressPasses(req, test)
    ensures r.Some? ==> Stage(r.value) == 1
    ensures r == Some(BadStreet) <==> Blank(test, req.street)
    ensures r == Some(BadCity) ==> !Blank(test, req.street) && Blank(test, req.city)
    ensures r == Some(BadState) ==> !Blank(test, req.street) && !Blank(test, req.city) && Blank(test, req.state)
    ensures r == Some(BadPostalCode) ==>
      !Blank(test, req.street) && !Blank(test, req.city) && !Blank(test, req.state) && Blank(test, req.postalCode)
    ensures r == Some(BadCountry) ==>
      !Blank(test, req.street) && !Blank(test, req.city) && !Blank(test, req.state) && !Blank(test, req.postalCode) &&
      Blank(test, req.country)
  {
    if Blank(test, req.street) then Some(BadStreet)
    else if Blank(test, req.city) then Some(BadCity)
    else if Blank(test, req.state) then Some(BadState)
    else if Blank(test, req.postalCode) then Some(BadPostalCode)
    else if Blank(test, req.country) then Some(BadCountry)
    else None
  }

  /** The blank checks on the basic information, then on the address. */
  function TextFailure(req: CreateCustomerRequest, test: BlankTest): (r: Option<Failure>)
    ensures r == None <==> TextFieldsPass(req, test)
    ensures r.Some? ==> Stage(r.value) == 1
  {
    var basic := BasicInfoFailure(req, test);
    if basic.Some? then basic else AddressFailure(req, test)
  }

  /** The identifier, volume and description checks, in order. */
  function ProfileFailure(req: CreateCustomerRequest, ext: Externals, test: BlankTest): (r: Option<Failure>)
    ensures r == None <==> ProfilePasses(req, ext, test)
    ensures r.Some? ==> Stage(r.value) == 2
    ensures r == Some(BadOccupationId) <==> BadId(req.occupationId)
    ensures r == Some(BadSourceOfFundId) ==> !BadId(req.occupationId) && BadId(req.sourceOfFundId)
    ensures r == Some(BadPurposeId) ==> !BadId(req.occupationId) && !BadId(req.sourceOfFundId) && BadId(req.purposeId)
    ensures r == Some(BadMonthlyVolume) ==>
      !BadId(req.occupationId) && !BadId(req.sourceOfFundId) && !BadId(req.purposeId) && !ext.volumeOk(req.monthlyVolumeUSD)
    ensures r == Some(BadSofDescription) ==>
      !BadId(req.occupationId) && !BadId(req.sourceOfFundId) && !BadId(req.purposeId) && ext.volumeOk(req.monthlyVolumeUSD) &&
      Blank(test, req.sofDescription)
    ensures r == Some(BadReference) ==>
      !BadId(req.occupationId) && !BadId(req.sourceOfFundId) && !BadId(req.purposeId) && ext.volumeOk(req.monthlyVolumeUSD) &&
      !Blank(test, req.sofDescription) && Blank(test, req.reference)
  {
    if BadId(req.occupationId) then Some(BadOccupationId)
    else if BadId(req.sourceOfFundId) then Some(BadSourceOfFundId)
    else if BadId(req.purposeId) then Some(BadPurposeId)
    else if !ext.volumeOk(req.monthlyVolumeUSD) then Some(BadMonthlyVolume)
    else if Blank(test, req.sofDescription) then Some(BadSofDescription)
    else if Blank(test, req.reference) then Some(BadReference)
    else None
  }

  /**
   * CreateCustomerRequest.ValidateRequest with `test` as the blank test: an early-return chain
   * through the three stages that stops at the first failing check, or None when all pass.
   */
  function FirstFailure(req: CreateCustomerRequest, ext: Externals, test: BlankTest): (r: Option<Failure>)
    requires req.verificationType.Some?
    ensures r == None <==> IdentityPasses(req, ext) && TextFieldsPass(req, test) && ProfilePasses(req, ext, test)
    ensures r.Some? && Stage(r.value) >= 1 ==> IdentityPasses(req, ext)
    ensures r.Some? && Stage(r.value) == 2 ==> TextFieldsPass(req, test)
  {
    var identity := IdentityFailure(req, ext);
    if identity.Some? then identity
    else
      var text := TextFailure(req, test);
      if text.Some? then text else ProfileFailure(req, ext, test)
  }

  /** The validator's answer: the message of the first failing check, or None. */
  function ValidateRequestWith(req: CreateCustomerRequest, ext: Externals, test: BlankTest): (r: Option<string>)
    requires req.verificationType.Some?
    ensures r == None <==> IdentityPasses(req, ext) && TextFieldsPass(req, test) && ProfilePasses(req, ext, test)
  {
    match FirstFailure(req, ext, test)
    case None => None
    case Some(f) => Some(Message(f))
  }

  /** ValidateRequest as written: the text fields are compared with a single space after trimming. */
  function ValidateRequest(req: CreateCustomerRequest, ext: Externals): (r: Option<string>)
    requires req.verificationType.Some?
    ensures r == None <==> IdentityPasses(req, ext) && ProfilePasses(req, ext, AsWritten)
  {
    TextFieldsNeverBlank(req);
    ValidateRequestWith(req, ext, AsWritten)
  }

  /** The corrected validation: text fields are refused when they are empty after trimming. */
  function ValidateRequestCorrected(req: CreateCustomerRequest, ext: Externals): (r: Option<string>)
    requires req.verificationType.Some?
    ensures r == None <==> IdentityPasses(req, ext) && TextFieldsPass(req, Intended) && ProfilePasses(req, ext, Intended)
  {
    ValidateRequestWith(req, ext, Intended)
  }

  /** The trimmed text never is a single space: its first character would be white space. */
  lemma TrimmedNeverSingleSpace(s: string)
    ensures !SingleSpace(s)
  {
    if TrimSpace(s) == " " {
      assert IsSpace(TrimSpace(s)[0]);
    }
  }

  /** As written, no text field is ever blank, so the blank checks never reject. */
  lemma TextFieldsNeverBlank(req: CreateCustomerRequest)
    ensures TextFieldsPass(req, AsWritten)
    ensures !Blank(AsWritten, req.sofDescription) && !Blank(AsWritten, req.reference)
  {
    TrimmedNeverSingleSpace(req.countryOfResidence);
    TrimmedNeverSingleSpace(req.nationality);
    TrimmedNeverSingleSpace(req.tin);
    TrimmedNeverSingleSpace(req.street);
    TrimmedNeverSingleSpace(req.city);
    TrimmedNeverSingleSpace(req.state);
    TrimmedNeverSingleSpace(req.postalCode);
    TrimmedNeverSingleSpace(req.country);
    TrimmedNeverSingleSpace(req.sofDescription);
    TrimmedNeverSingleSpace(req.reference);
  }

  /** The verification type is checked first: any other value is refused whatever the rest holds. */
  lemma VerificationTypeFirst(req: CreateCustomerRequest, ext: Externals, test: BlankTest)
    requires req.verificationType.Some?
    requires req.verificationType.value != ext.reliance && req.verificationType.value != ext.standard
    ensures ValidateRequestWith(req, ext, test) == Some("Invalid verification type")
  {
  }

  /**
   * The identifiers are checked in order after the identity and text checks: a bad occupation
   * ID is reported before the fund and purpose IDs, then the fund ID before the purpose ID.
   */
  lemma IdsCheckedInOrder(req: CreateCustomerRequest, ext: Externals)
    requires req.verificationType.Some? && IdentityPasses(req, ext)
    ensures BadId(req.occupationId) ==> ValidateRequest(req, ext) == Some("Invalid occupation ID")
    ensures !BadId(req.occupationId) && BadId(req.sourceOfFundId) ==> ValidateRequest(req, ext) == Some("Invalid source of fund ID")
    ensures !BadId(req.occupationId) && !BadId(req.sourceOfFundId) && BadId(req.purposeId) ==>
              ValidateRequest(req, ext) == Some("Invalid purpose ID")
  {
    TextFieldsNeverBlank(req);
  }

  /** As written, no request is ever refused for its country of residence. */
  lemma AsWrittenNeverRefusesCountry(req: CreateCustomerRequest, ext: Externals)
    requires req.verificationType.Some?
    ensures FirstFailure(req, ext, AsWritten) != Some(BadCountryOfResidence)
    ensures ValidateRequest(req, ext) != Some("Invalid country of residence")
  {
    TextFieldsNeverBlank(req);
    var f := FirstFailure(req, ext, AsWritten);
    if f.Some? {
      assert Stage(f.value) != 1;
      assert |Message(f.value)| != |"Invalid country of residence"|;
    }
  }

  /** The corrected chain refuses a blank country of residence once the identity checks pass. */
  lemma CorrectedRefusesBlankCountry(req: CreateCustomerRequest, ext: Externals)
    requires req.verificationType.Some? && IdentityPasses(req, ext)
    requires AllSpace(req.countryOfResidence)
    ensures ValidateRequestCorrected(req, ext) == Some("Invalid country of residence")
    ensures ValidateRequest(req, ext) != Some("Invalid country of residence")
  {
    AllSpaceTrimsToEmpty(req.countryOfResidence);
    assert FirstFailure(req, ext, Intended) == Some(BadCountryOfResidence);
    AsWrittenNeverRefusesCountry(req, ext);
  }
}
