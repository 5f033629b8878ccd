/** Option and Result, the two failure-carrying wrappers the model uses in place of
    `undefined` and of thrown exceptions. */
module Wrappers {

  datatype Option<+T> = None | Some(value: T) {
    function GetOr(default: T): T {
      match this
      case Some(v) => v
      case None => default
    }
  }

  datatype Result<+R, +E> = Success(value: R) | Failure(error: E)
}

/** The errors the plugin throws. */
module Errors {

  datatype Error =
    | InvalidColumnType(tag: string)       // utils.ts: conversion of a `link` column
    | InvalidField(field: string)          // parseQueryFields: malformed or unresolvable path
    | UnknownTable(name: string)           // query: the client has no such table
    | MissingRecordId                      // query: DELETE without a string id
    | UnsupportedOperation(name: string)   // query: any other operation kind
}
