/** Failure-carrying results shared by every module of the scraper model. */
module Wrappers {

  datatype Option<+T> = None | Some(value: T)

  /** The exceptions the scraper raises, one constructor per distinct cause. */
  datatype Error =
    | NoTables                      // pd.read_html found no <table> at all
    | TableNotFound                 // no candidate table has Month and Close
    | LabelNotText                  // .strip() applied to a non-string column label
    | ColumnNotFound(name: string)  // a column could not be resolved (StopIteration / ValueError)
    | KeyMissing(name: string)      // a dictionary or frame lookup by name failed (KeyError)
    | IndexOutOfRange               // .iloc or split()[k] on too short a sequence (IndexError)
    | NotAnInteger(text: string)    // int(text) failed (ValueError)
    | UnknownMonth(text: string)    // a month abbreviation outside Jan..Dec (ValueError)
    | MissingToken(name: string)    // a mandatory ASP.NET form token is absent or empty
    | Transport(detail: string)     // a request or a foreign parser failed
    | NoProgress(month: int, year: int) // the page of this window did not move the next window past it

  datatype Result<+T> = Success(value: T) | Failure(error: Error)
}
