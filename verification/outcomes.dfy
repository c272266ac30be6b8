/** The result wrappers shared by every operation of the campaign store.

    Each store operation runs inside one SQLite connection context: it either commits
    (`Ok` with the new state) or raises and rolls back (`Err`, the caller keeps the old state).
 */
module Outcomes {

  datatype Option<+T> = None | Some(value: T)

  /** The error conditions the store operations raise. */
  datatype Error =
    | UnknownTemplate(template: string)     // create_campaign: template not in the catalog
    | MissingFields                         // add_employees: a record lacks email, name or department
    | NoData                                // add_employees: the record list is empty
    | DuplicateKey(table: string)           // an INSERT violated a PRIMARY KEY or UNIQUE constraint
    | CampaignNotFound                      // generate_emails: no campaign with that id
    | TemplateNotFound(template: string)    // generate_emails: stored template no longer in the catalog
    | UnsupportedFormat(format: string)     // export_report: format other than csv or json

  datatype Outcome<+T> = Ok(value: T) | Err(error: Error)
}
