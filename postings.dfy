/** The record shapes shared by the scrapers and the matcher. */
module Postings {

  datatype Option<T> = None | Some(value: T)

  /** The outcome of a computation that can raise: the raised error is an `Err`. */
  datatype Result<T, E> = Ok(value: T) | Err(error: E)

  /** One job posting in the six-column schema every scraper delivers:
      Platform, Job Title, Company, Location, Job Description, Job URL. */
  datatype Posting = Posting(
    platform: string,
    jobTitle: string,
    company: string,
    location: string,
    jobDescription: string,
    jobUrl: string)
}
