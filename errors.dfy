/** The errors the builder returns. Errors raised by collaborators (the file system, the
    front-matter parser, the Markdown converter, the template engine, the emoji renderer) are
    passed through unchanged, so they are carried as opaque messages. */
module Errors {
  datatype Error =
    | TemplateNotFound          // errors.New("template not found") in lookUpTemplate
    | External(message: string) // an error returned by a collaborator, propagated as is
}
