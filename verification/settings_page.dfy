/**
  The settings page
  (src/app/features/settings/components/settings-page/settings-page.component.ts)
  as a record of its five form groups, the logo selection and the save flow.
  Backend calls are appended to `requests`; each reply is its own
  transition. The field validators and `getErrorMessage` are in `FormRules`.
 */
module SettingsPage {
  import opened Common
  import opened Text
  import opened FormRules

  // ---------------------------------------------------------------------------
  // Form groups

  /** One form control: its value, its validators, and the e-mail regex verdict on the value. */
  datatype Field = Field(value: FieldValue, rules: seq<Rule>, emailShaped: bool)

  /** A form group: controls by name. */
  type FormGroup = map<string, Field>

  /** `FormGroup.valid`: every control accepts its value. */
  predicate GroupValid(g: FormGroup)
  {
    forall k :: k in g ==> Accepts(g[k].rules, g[k].value, g[k].emailShaped)
  }

  /** `FormGroup.value`. */
  function GroupValue(g: FormGroup): (r: map<string, FieldValue>)
    ensures r.Keys == g.Keys
    ensures forall k :: k in g ==> r[k] == g[k].value
  {
    map k | k in g :: g[k].value
  }

  /** The groups `initializeForms` builds, with their initial values. */
  const InitialCompany: FormGroup := map[
    "name" := Field(Str(""), CompanyNameRules, false),
    "ruc" := Field(Str(""), RucRules, false),
    "address" := Field(Str(""), AddressRules, false),
    "phone" := Field(Str(""), PhoneRules, false),
    "email" := Field(Str(""), EmailRules, false)]

  const InitialFiscal: FormGroup := map[
    "country" := Field(Str("EC"), ChoiceRules, false),
    "currency" := Field(Str("USD"), ChoiceRules, false),
    "taxRegime" := Field(Str("Régimen General"), ChoiceRules, false),
    "ivaPercentage" := Field(Num(15.0), IvaRules, false)]

  const InitialBusiness: FormGroup := map[
    "minStock" := Field(Num(10.0), MinStockRules, false),
    "defaultCreditDays" := Field(Num(30.0), CreditDaysRules, false),
    "maxDiscountPercentage" := Field(Num(20.0), MaxDiscountRules, false)]

  const InitialTechnical: FormGroup := map[
    "sessionTimeoutMinutes" := Field(Num(120.0), SessionTimeoutRules, false),
    "logRetentionDays" := Field(Num(90.0), LogRetentionRules, false),
    "dateFormat" := Field(Str("DD/MM/YYYY"), ChoiceRules, false),
    "timeFormat" := Field(Str("24h"), ChoiceRules, false)]

  const InitialBackup: FormGroup := map[
    "enabled" := Field(Flag(true), ChoiceRules, false),
    "frequency" := Field(Str("daily"), ChoiceRules, false),
    "time" := Field(Str("02:00"), BackupTimeRules, false)]

  /** A field with only `Validators.required` accepts exactly the non-empty inputs. */
  lemma RequiredOnly(v: FieldValue)
    ensures Accepts(ChoiceRules, v, false) <==> !IsEmptyInput(v)
  {
    AcceptsIffAllPass(ChoiceRules, v, false);
    assert ChoiceRules[0] == Required;
  }

  /** The empty company form fails: its required fields are blank. */
  lemma InitialCompanyInvalid()
    ensures !GroupValid(InitialCompany)
  {
    CompanyTextBounds("");
    assert InitialCompany["name"] == Field(Str(""), CompanyNameRules, false);
  }

  lemma InitialFiscalValid()
    ensures GroupValid(InitialFiscal)
  {
    forall k | k in InitialFiscal
      ensures Accepts(InitialFiscal[k].rules, InitialFiscal[k].value, false)
    {
      if k == "ivaPercentage" {
        PercentageBounds(15.0);
      } else {
        RequiredOnly(InitialFiscal[k].value);
      }
    }
  }

  lemma InitialBusinessValid()
    ensures GroupValid(InitialBusiness)
  {
    PercentageBounds(20.0);
    NonNegativeBounds(10.0);
    NonNegativeBounds(30.0);
  }

  lemma InitialTechnicalValid()
    ensures GroupValid(InitialTechnical)
  {
    forall k | k in InitialTechnical
      ensures Accepts(InitialTechnical[k].rules, InitialTechnical[k].value, false)
    {
      if k == "sessionTimeoutMinutes" || k == "logRetentionDays" {
        TechnicalBounds(InitialTechnical[k].value.x);
      } else {
        RequiredOnly(InitialTechnical[k].value);
      }
    }
  }

  lemma InitialBackupValid()
    ensures GroupValid(InitialBackup)
  {
    forall k | k in InitialBackup
      ensures Accepts(InitialBackup[k].rules, InitialBackup[k].value, false)
    {
      if k == "time" {
        AcceptsIffAllPass(BackupTimeRules, Str("02:00"), false);
        assert MatchesTimePattern("02:00") by {
          assert "02:00"[..2] == "02" && "02:00"[3..] == "00";
        }
        assert Passes(BackupTimeRules[1], Str("02:00"), false);
      } else {
        RequiredOnly(InitialBackup[k].value);
      }
    }
  }

  /**
    The initial fiscal, business, technical and backup values pass their
    own validators; the empty company form does not, so the page cannot be
    saved before the company data is filled in.
   */
  lemma InitialGroupsValidity()
    ensures !GroupValid(InitialCompany)
    ensures GroupValid(InitialFiscal) && GroupValid(InitialBusiness)
    ensures GroupValid(InitialTechnical) && GroupValid(InitialBackup)
  {
    InitialCompanyInvalid();
    InitialFiscalValid();
    InitialBusinessValid();
    InitialTechnicalValid();
    InitialBackupValid();
  }

  /** `minStock` and `defaultCreditDays` accept exactly the non-negative numbers. */
  lemma NonNegativeBounds(x: real)
    ensures Accepts(MinStockRules, Num(x), false) <==> x >= 0.0
    ensures Accepts(CreditDaysRules, Num(x), false) <==> x >= 0.0
  {
    AcceptsIffAllPass(MinStockRules, Num(x), false);
    AcceptsIffAllPass(CreditDaysRules, Num(x), false);
  }

  // ---------------------------------------------------------------------------
  // Page state

  /** A selected file as the page inspects it: its MIME type and size in bytes. */
  datatype LogoFile = LogoFile(mimeType: string, size: int)

  /** The body of the configuration update: four groups' values, no backup group. */
  datatype ConfigPayload = ConfigPayload(
    company: map<string, FieldValue>,
    fiscal: map<string, FieldValue>,
    business: map<string, FieldValue>,
    technical: map<string, FieldValue>)

  datatype SettingsRequest = UpdateConfiguration(payload: ConfigPayload) | UploadLogo(file: LogoFile)

  datatype SettingsState = SettingsState(
    company: FormGroup,
    fiscal: FormGroup,
    business: FormGroup,
    technical: FormGroup,
    backup: FormGroup,
    isSaving: bool,
    currentLogo: Option<string>,
    selectedFile: Option<LogoFile>,
    logoPreview: Option<string>,
    alerts: seq<Alert>,
    requests: seq<SettingsRequest>)

  /** The page after construction: initial forms, nothing selected, nothing saving. */
  function Start(): (s: SettingsState)
    ensures !s.isSaving && s.selectedFile.None? && s.logoPreview.None? && s.currentLogo.None?
    ensures s.alerts == [] && s.requests == []
  {
    SettingsState(InitialCompany, InitialFiscal, InitialBusiness, InitialTechnical, InitialBackup,
                  false, None, None, None, [], [])
  }

  // ---------------------------------------------------------------------------
  // Logo selection

  const AllowedTypes: seq<string> := ["image/jpeg", "image/png", "image/jpg"]
  const MaxLogoSize := 2 * 1024 * 1024
  const BadTypeText := "Formato de imagen no válido. Use JPG o PNG"
  const TooLargeText := "El archivo es demasiado grande. Máximo 2MB"

  /** A file the page takes: an allowed type, and at most 2 MiB. */
  predicate LogoAcceptable(f: LogoFile)
  {
    f.mimeType in AllowedTypes && f.size <= MaxLogoSize
  }

  /**
    `onFileSelected`: no file changes nothing; a file of another type, or
    then a file over the limit, raises one alert and keeps the previous
    selection; an acceptable file becomes the selection. The preview the
    `FileReader` later produces is not modelled.
   */
  function OnFileSelected(s: SettingsState, file: Option<LogoFile>): (r: SettingsState)
    ensures file.Some? && LogoAcceptable(file.value) ==> r.selectedFile == file
    ensures file.None? || !LogoAcceptable(file.value) ==> r.selectedFile == s.selectedFile
    ensures |r.alerts| == |s.alerts| + (if file.Some? && !LogoAcceptable(file.value) then 1 else 0)
    ensures r.alerts[..|s.alerts|] == s.alerts
    ensures r.(alerts := s.alerts, selectedFile := s.selectedFile) == s
  {
    if file.None? then s
    else if file.value.mimeType !in AllowedTypes then s.(alerts := s.alerts + [ErrorAlert(BadTypeText)])
    else if file.value.size > MaxLogoSize then s.(alerts := s.alerts + [ErrorAlert(TooLargeText)])
    else s.(selectedFile := file)
  }

  /**
    The type is checked before the size: a file wrong in both ways gets the
    type message. A file of exactly 2 MiB is taken; one byte more is not.
   */
  lemma LogoChecksInOrder(s: SettingsState, t: string)
    requires t in AllowedTypes
    ensures OnFileSelected(s, Some(LogoFile("image/gif", MaxLogoSize + 1))).alerts == s.alerts + [ErrorAlert(BadTypeText)]
    ensures OnFileSelected(s, Some(LogoFile(t, MaxLogoSize))).selectedFile == Some(LogoFile(t, MaxLogoSize))
    ensures OnFileSelected(s, Some(LogoFile(t, MaxLogoSize + 1))).alerts == s.alerts + [ErrorAlert(TooLargeText)]
  {
    assert "image/gif" != AllowedTypes[0] && "image/gif" != AllowedTypes[1] && "image/gif" != AllowedTypes[2];
  }

  /** `cancelLogoSelection`: forget the selected file and its preview. */
  function CancelLogoSelection(s: SettingsState): (r: SettingsState)
    ensures r.selectedFile.None? && r.logoPreview.None?
    ensures r.(selectedFile := s.selectedFile, logoPreview := s.logoPreview) == s
  {
    s.(selectedFile := None, logoPreview := None)
  }

  /** Selecting a file and then cancelling leaves no trace but the alerts the selection raised. */
  lemma SelectThenCancel(s: SettingsState, file: Option<LogoFile>)
    ensures CancelLogoSelection(OnFileSelected(s, file)).(alerts := s.alerts) == CancelLogoSelection(s)
  {
  }

  // ---------------------------------------------------------------------------
  // Saving

  const FixFormText := "Por favor corrija los errores en el formulario"
  const SavedText := "Configuración guardada exitosamente"
  const SaveFailedText := "Error al guardar la configuración"
  const ValidationHeader := "Errores de validación:\n"

  /** `validateAllForms()`: all five groups valid, the backup group included. */
  predicate FormsValid(s: SettingsState)
  {
    GroupValid(s.company) && GroupValid(s.fiscal) && GroupValid(s.business) && GroupValid(s.technical) && GroupValid(s.backup)
  }

  function Payload(s: SettingsState): ConfigPayload
  {
    ConfigPayload(GroupValue(s.company), GroupValue(s.fiscal), GroupValue(s.business), GroupValue(s.technical))
  }

  /**
    `saveAllConfiguration`: with an invalid group, one alert and nothing
    sent; otherwise saving starts and the update request goes out.
   */
  function SaveAll(s: SettingsState): (r: SettingsState)
    ensures !FormsValid(s) ==> r == s.(alerts := s.alerts + [ErrorAlert(FixFormText)])
    ensures FormsValid(s) ==> r.isSaving && r.alerts == s.alerts && r.requests == s.requests + [UpdateConfiguration(Payload(s))]
  {
    if !FormsValid(s) then s.(alerts := s.alerts + [ErrorAlert(FixFormText)])
    else s.(isSaving := true, requests := s.requests + [UpdateConfiguration(Payload(s))])
  }

  /**
    The backup group must be valid for anything to be sent, yet its values
    never reach the request: two pages differing only in a valid backup
    group send the same thing.
   */
  lemma SavedPayloadIgnoresBackup(s: SettingsState, b: FormGroup)
    ensures !GroupValid(b) ==> SaveAll(s.(backup := b)).requests == s.requests
    ensures FormsValid(s) && GroupValid(b) ==> SaveAll(s.(backup := b)).requests == SaveAll(s).requests
  {
  }

  /** Saving the freshly built page is refused: the company group starts empty. */
  lemma InitialSaveRefused()
    ensures SaveAll(Start()).alerts == [ErrorAlert(FixFormText)]
    ensures SaveAll(Start()).requests == [] && !SaveAll(Start()).isSaving
  {
    InitialGroupsValidity();
  }

  /** One error of the server's list as a line: `field: message`, `Campo` when the field is missing. */
  function FieldLine(e: ApiError): string
  {
    TextOr(e.field, "Campo") + ": " + e.message
  }

  function FieldLines(errors: seq<ApiError>): (r: seq<string>)
    ensures |r| == |errors|
    ensures forall i :: 0 <= i < |errors| ==> r[i] == FieldLine(errors[i])
  {
    seq(|errors|, i requires 0 <= i < |errors| => FieldLine(errors[i]))
  }

  /** The alert text for a failed update, from the `errors` of the reply. */
  function SaveErrorText(errors: Option<seq<ApiError>>): string
  {
    if errors.Some? && |errors.value| > 0 then ValidationHeader + Join(FieldLines(errors.value), "\n")
    else SaveFailedText
  }

  /**
    A non-empty list of errors is shown under the header, one line per
    error; without one the generic text is shown. When no field name or
    message contains a line break, the text has exactly one line break per
    error: the header's and one between each two neighbours.
   */
  lemma SaveErrorTextLines(errors: Option<seq<ApiError>>)
    ensures errors.None? || |errors.value| == 0 ==> SaveErrorText(errors) == SaveFailedText
    ensures errors.Some? && |errors.value| > 0 ==>
      SaveErrorText(errors)[..|ValidationHeader|] == ValidationHeader
    ensures (&& errors.Some? && |errors.value| > 0
             && forall i :: 0 <= i < |errors.value| ==> '\n' !in FieldLine(errors.value[i])) ==>
      Count(SaveErrorText(errors), '\n') == |errors.value|
  {
    if errors.Some? && |errors.value| > 0 && forall i :: 0 <= i < |errors.value| ==> '\n' !in FieldLine(errors.value[i]) {
      var lines := FieldLines(errors.value);
      CountSingle('\n');
      JoinSeparatorCount(lines, "\n", '\n');
      var head := "Errores de validación:";
      assert ValidationHeader == head + "\n";
      CountAbsent(head, '\n');
      CountAppend(head, "\n", '\n');
      CountAppend(ValidationHeader, Join(lines, "\n"), '\n');
    }
  }

  /** A one-error reply without a field reads "Errores de validación:\nCampo: " and the message. */
  lemma SaveErrorWithoutField(message: string)
    ensures SaveErrorText(Some([ApiError(None, message)])) == "Errores de validación:\nCampo: " + message
  {
    assert FieldLines([ApiError(None, message)]) == [FieldLine(ApiError(None, message))];
  }

  /** How the update request ended: a reply (`success` or not), or an error with its `errors`. */
  datatype SaveOutcome = Replied(success: bool) | Failed(errors: Option<seq<ApiError>>)

  /**
    The reply handlers as written. A reply runs `next` and then `complete`,
    which clears `isSaving`; a successful reply also starts the logo upload
    when a file is selected. A failure runs `error` only, and in the
    observable protocol `complete` does not follow `error`, so `isSaving`
    stays as it was.
   */
  function SaveFinishedAsWritten(s: SettingsState, outcome: SaveOutcome): (r: SettingsState)
    ensures r.isSaving <==> outcome.Failed? && s.isSaving
    ensures r.(alerts := s.alerts, requests := s.requests, isSaving := s.isSaving) == s
    ensures |s.requests| <= |r.requests| && r.requests[..|s.requests|] == s.requests
    ensures outcome == Replied(true) ==>
      r.alerts == s.alerts + [SuccessAlert(SavedText)]
      && (|r.requests| == |s.requests| + 1 <==> s.selectedFile.Some?)
      && (s.selectedFile.Some? ==> r.requests[|s.requests|] == UploadLogo(s.selectedFile.value))
    ensures outcome == Replied(false) ==> r == s.(isSaving := false)
    ensures outcome.Failed? ==>
      r.alerts == s.alerts + [ErrorAlert(SaveErrorText(outcome.errors))] && r.requests == s.requests
  {
    match outcome
    case Replied(success) =>
      if success then
        s.(alerts := s.alerts + [SuccessAlert(SavedText)],
           requests := s.requests + (if s.selectedFile.Some? then [UploadLogo(s.selectedFile.value)] else []),
           isSaving := false)
      else s.(isSaving := false)
    case Failed(errors) =>
      s.(alerts := s.alerts + [ErrorAlert(SaveErrorText(errors))])
  }

  /** After a failed update the page as written keeps showing that it is saving. */
  lemma SaveFailureKeepsSavingAsWritten(s: SettingsState, errors: Option<seq<ApiError>>)
    requires FormsValid(s)
    ensures SaveFinishedAsWritten(SaveAll(s), Failed(errors)).isSaving
  {
  }

  /**
    The handlers with the saving flag cleared on every way the request can
    end, failure included; alerts and requests are those of the handlers
    as written.
   */
  function SaveFinished(s: SettingsState, outcome: SaveOutcome): (r: SettingsState)
    ensures !r.isSaving
    ensures r.alerts == SaveFinishedAsWritten(s, outcome).alerts
    ensures r.requests == SaveFinishedAsWritten(s, outcome).requests
  {
    SaveFinishedAsWritten(s, outcome).(isSaving := false)
  }

  /**
    A save started on valid forms always settles: whatever the outcome the
    flag is down afterwards. Exactly one alert is raised unless the reply
    reported no success, and the logo upload is requested exactly when the
    update succeeded with a file selected.
   */
  lemma SaveSettles(s: SettingsState, outcome: SaveOutcome)
    requires FormsValid(s)
    ensures !SaveFinished(SaveAll(s), outcome).isSaving
    ensures |SaveFinished(SaveAll(s), outcome).alerts| == |s.alerts| + (if outcome == Replied(false) then 0 else 1)
    ensures SaveFinished(SaveAll(s), outcome).requests ==
      s.requests + [UpdateConfiguration(Payload(s))]
        + (if outcome == Replied(true) && s.selectedFile.Some? then [UploadLogo(s.selectedFile.value)] else [])
  {
    assert s.requests + [UpdateConfiguration(Payload(s))] + [] == s.requests + [UpdateConfiguration(Payload(s))];
  }

  /**
    The upload reply. With a logo URL the new logo replaces the current one
    and the selection and preview are cleared; without one only the flag
    changes. A failed upload raises one alert. Either way the flag goes down.
   */
  function LogoUploaded(s: SettingsState, logoUrl: Option<string>): (r: SettingsState)
    ensures !r.isSaving
    ensures logoUrl.Some? ==> r.currentLogo == logoUrl && r.selectedFile.None? && r.logoPreview.None?
    ensures logoUrl.Some? ==> r.alerts == s.alerts + [SuccessAlert("Logo actualizado exitosamente")]
    ensures logoUrl.None? ==> r == s.(isSaving := false)
  {
    if logoUrl.Some? then
      s.(currentLogo := logoUrl, logoPreview := None, selectedFile := None,
         alerts := s.alerts + [SuccessAlert("Logo actualizado exitosamente")], isSaving := false)
    else s.(isSaving := false)
  }

  function LogoUploadFailed(s: SettingsState): (r: SettingsState)
    ensures !r.isSaving && r.selectedFile == s.selectedFile
    ensures r.alerts == s.alerts + [ErrorAlert("Error al subir el logo")]
  {
    s.(alerts := s.alerts + [ErrorAlert("Error al subir el logo")], isSaving := false)
  }
}
