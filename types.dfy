/** Records shared by the components and the service (types.ts). */
module Types {

  /** An optional value: a JavaScript `null`/`undefined` or a present value. */
  datatype Option<+T> = None | Some(value: T)

  /** A selectable country. Only `code`, `nameAr` and `nameEn` take part in
      matching; the other fields pass through untouched. */
  datatype Country = Country(
    code: string,
    nameAr: string,
    nameEn: string,
    flag: string,
    currencyCode: string,
    color: string)

  /** A web source cited by the generated report. */
  datatype Source = Source(title: string, url: string)

  /** What the service hands back to the application. */
  datatype VisaInfoResponse = VisaInfoResponse(
    markdown: string,
    sources: seq<Source>,
    generatedAt: string)
}
