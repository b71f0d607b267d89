/** The exchange-rate transfer object, the stored entity, and the two
    converters between them. */
module ExchangeRates {
  import opened Wrappers
  import opened Currencies

  /** ExchangeRateDto: display title, currency code ("USD"), rate to RUB. */
  datatype ExchangeRateDto = ExchangeRateDto(title: string, name: string, value: real)

  /** The stored entity, keyed by its currency. */
  datatype ExchangeRate = ExchangeRate(currency: Currency, value: real)

  /** ExchangeRateFromDTOConverter.apply: Currency.valueOf(name) and the
      value; the title is not read. A name that is no constant makes valueOf
      throw (None). */
  function FromDto(dto: ExchangeRateDto): (r: Option<ExchangeRate>)
    ensures r.Some? <==> dto.name in {"RUB", "USD", "CNY"}
    ensures r.Some? ==> Name(r.value.currency) == dto.name && r.value.value == dto.value
  {
    match ValueOf(dto.name)
    case None => None
    case Some(c) => Some(ExchangeRate(c, dto.value))
  }

  /** ExchangeRateToDTOConverter.apply. */
  function ToDto(e: ExchangeRate): (dto: ExchangeRateDto)
    ensures dto.title == Title(e.currency) && dto.name == Name(e.currency) && dto.value == e.value
  {
    ExchangeRateDto(Title(e.currency), Name(e.currency), e.value)
  }

  /** Entity -> DTO -> entity gives the entity back. */
  lemma EntityRoundTrip(e: ExchangeRate)
    ensures FromDto(ToDto(e)) == Some(e)
  {
    ValueOfName(e.currency);
  }

  /** DTO -> entity -> DTO gives the DTO back exactly when its title was the
      currency's own title: the title is the only thing lost. */
  lemma DtoRoundTrip(dto: ExchangeRateDto)
    requires FromDto(dto).Some?
    ensures ToDto(FromDto(dto).value) == dto <==> dto.title == Title(FromDto(dto).value.currency)
  {
  }

  /** The title plays no part in the conversion. */
  lemma TitleIgnored(dto: ExchangeRateDto, title: string)
    ensures FromDto(dto.(title := title)) == FromDto(dto)
  {
  }

  lemma YuanExample()
    ensures FromDto(ExchangeRateDto("Юань", "CNY", 13.2)) == Some(ExchangeRate(CNY, 13.2))
  {
  }
}
